/**
 * The "current runs" list of `devops_monitor.py` (`builds.json`): bounded,
 * most-recent-first and one entry per run id.  `Upsert` is the list
 * `_save_current_snapshot` writes back.
 */
module Snapshots {
  import opened Runs

  /** The list keeps at most this many runs (`curr[:100]`). */
  const Cap: nat := 100

  /** The run id of entry `i`. */
  function IdAt(runs: seq<Run>, i: nat): string
    requires i < |runs|
  {
    runs[i].id
  }

  /** No two entries share a run id. */
  predicate UniqueIds(runs: seq<Run>)
  {
    forall i, j :: 0 <= i < j < |runs| ==> IdAt(runs, i) != IdAt(runs, j)
  }

  /** `[x for x in runs if x.get("id") != id]` */
  function Without(runs: seq<Run>, id: string): (r: seq<Run>)
    ensures |r| <= |runs|
    ensures forall x :: x in r <==> x in runs && x.id != id
    decreases |runs|
  {
    if runs == [] then []
    else if runs[0].id == id then Without(runs[1..], id)
    else [runs[0]] + Without(runs[1..], id)
  }

  /** `_save_current_snapshot(run)`: drop the run's old entry, put the run in front, keep the first `Cap`. */
  function Upsert(current: seq<Run>, run: Run): (r: seq<Run>)
    ensures 1 <= |r| <= Cap
    ensures r[0] == run
    ensures forall i :: 1 <= i < |r| ==> IdAt(r, i) != run.id
    ensures |r| == if |Without(current, run.id)| < Cap then 1 + |Without(current, run.id)| else Cap
    ensures r[1..] == Without(current, run.id)[..|r| - 1]
  {
    var kept := [run] + Without(current, run.id);
    if |kept| <= Cap then kept else kept[..Cap]
  }

  /** Filtering distributes over concatenation: the kept entries stay in their original order. */
  lemma {:induction false} WithoutAppend(a: seq<Run>, b: seq<Run>, id: string)
    ensures Without(a + b, id) == Without(a, id) + Without(b, id)
    decreases |a|
  {
    if a == [] {
      assert a + b == b;
    } else {
      assert (a + b)[1..] == a[1..] + b;
      WithoutAppend(a[1..], b, id);
    }
  }

  /** Filtering out an id nobody has changes nothing. */
  lemma {:induction false} WithoutAbsent(runs: seq<Run>, id: string)
    requires forall i :: 0 <= i < |runs| ==> runs[i].id != id
    ensures Without(runs, id) == runs
    decreases |runs|
  {
    if runs != [] {
      WithoutAbsent(runs[1..], id);
    }
  }

  /** Filtering keeps a list free of duplicate ids. */
  lemma {:induction false} WithoutUnique(runs: seq<Run>, id: string)
    requires UniqueIds(runs)
    ensures UniqueIds(Without(runs, id))
    decreases |runs|
  {
    if runs != [] {
      forall i, j | 0 <= i < j < |runs[1..]| ensures IdAt(runs[1..], i) != IdAt(runs[1..], j) {
        assert IdAt(runs, i + 1) != IdAt(runs, j + 1);
      }
      WithoutUnique(runs[1..], id);
      var rest := Without(runs[1..], id);
      if runs[0].id != id {
        forall x | x in rest ensures x.id != runs[0].id {
          var k :| 0 <= k < |runs[1..]| && runs[1..][k] == x;
          assert runs[k + 1] == x && IdAt(runs, 0) != IdAt(runs, k + 1);
        }
        var r := Without(runs, id);
        forall i, j | 0 <= i < j < |r| ensures IdAt(r, i) != IdAt(r, j) {
          if i == 0 {
            assert r[j] == rest[j - 1] && r[j] in rest;
          } else {
            assert r[i] == rest[i - 1] && r[j] == rest[j - 1] && IdAt(rest, i - 1) != IdAt(rest, j - 1);
          }
        }
      } else {
        var r := Without(runs, id);
        forall i, j | 0 <= i < j < |r| ensures IdAt(r, i) != IdAt(r, j) {
          assert IdAt(rest, i) != IdAt(rest, j);
        }
      }
    }
  }

  /** The list never holds two entries with the same run id. */
  lemma UpsertKeepsIdsUnique(current: seq<Run>, run: Run)
    requires UniqueIds(current)
    ensures UniqueIds(Upsert(current, run))
  {
    WithoutUnique(current, run.id);
    var r := Upsert(current, run);
    var kept := Without(current, run.id);
    forall i, j | 0 <= i < j < |r| ensures IdAt(r, i) != IdAt(r, j) {
      if i > 0 {
        assert r[i] == kept[i - 1] && r[j] == kept[j - 1] && IdAt(kept, i - 1) != IdAt(kept, j - 1);
      }
    }
  }

  /** Snapshotting the same run again replaces its earlier snapshot: only the last one matters. */
  lemma UpsertAbsorbs(current: seq<Run>, earlier: Run, later: Run)
    requires earlier.id == later.id
    ensures Upsert(Upsert(current, earlier), later) == Upsert(current, later)
  {
    var id := later.id;
    var rest := Without(current, id);
    var first := Upsert(current, earlier);
    assert first == [earlier] + first[1..];
    WithoutAbsent(first[1..], id);
    assert Without(first, id) == rest[..|first| - 1];
  }

  /** A new run id pushes out the oldest entries of a full list and keeps the others in order. */
  lemma UpsertEvictsOldest(current: seq<Run>, run: Run)
    requires forall i :: 0 <= i < |current| ==> current[i].id != run.id
    ensures Upsert(current, run) == [run] + current[..if |current| < Cap then |current| else Cap - 1]
  {
    WithoutAbsent(current, run.id);
  }

  /** An entry of another run stays in the list, unless the cap pushes it out from the oldest end. */
  lemma UpsertRetains(current: seq<Run>, run: Run, k: nat)
    requires k < |current| && k < Cap - 1
    requires current[k].id != run.id
    ensures current[k] in Upsert(current, run)
  {
    var x := current[k];
    WithoutAppend(current[..k], current[k..], run.id);
    assert current == current[..k] + current[k..];
    assert current[k..] == [x] + current[k + 1..];
    assert Without(current[k..], run.id) == [x] + Without(current[k + 1..], run.id);
    var w := Without(current, run.id);
    var pos := |Without(current[..k], run.id)|;
    assert w[pos] == x;
    assert pos <= k;
    var r := Upsert(current, run);
    assert r[1..][pos] == x;
  }
}
