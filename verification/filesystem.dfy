/**
 The bot's working directory as a map from path to file size, and the two
 things the handler does with it besides writing: the "exists and is
 non-empty" check that decides whether a variant is delivered, and the
 best-effort cleanup.

 Cleanup removes the paths one by one. Removing a missing path raises, and
 the single `try` around the whole sequence swallows the exception, so the
 first missing path ends the cleanup: every path after it is left on disk.
 */
module FileSystem {

  type FS = map<string, nat>

  /** `os.path.exists(p) and os.path.getsize(p) > 0` */
  predicate HasContent(fs: FS, p: string) {
    p in fs && fs[p] > 0
  }

  /** `p` has the same presence and size in both filesystems. */
  predicate Same(a: FS, b: FS, p: string) {
    (p in a <==> p in b) && (p in a ==> a[p] == b[p])
  }

  predicate Distinct(ps: seq<string>) {
    forall i, j :: 0 <= i < j < |ps| ==> ps[i] != ps[j]
  }

  /** Removes `ps` in order, stopping silently at the first path that is not there. */
  function Cleanup(fs: FS, ps: seq<string>): (r: FS)
    ensures r.Keys <= fs.Keys
    ensures forall p :: p in r ==> r[p] == fs[p]
    ensures forall p :: p in fs && p !in ps ==> p in r
    ensures |ps| > 0 && ps[0] in fs ==> ps[0] !in r
  {
    if |ps| == 0 || ps[0] !in fs then fs
    else Cleanup(fs - {ps[0]}, ps[1..])
  }

  /** The index of the first path of `ps` missing from `fs`, or `|ps|` if all are present. */
  function FirstAbsent(fs: FS, ps: seq<string>): (k: nat)
    ensures k <= |ps|
    ensures forall j :: 0 <= j < k ==> ps[j] in fs
    ensures k < |ps| ==> ps[k] !in fs
  {
    if |ps| == 0 || ps[0] !in fs then 0 else 1 + FirstAbsent(fs, ps[1..])
  }

  /** The first `k` paths of `ps`, as a set. */
  function Leading(ps: seq<string>, k: nat): set<string>
    requires k <= |ps|
  {
    set j | 0 <= j < k :: ps[j]
  }

  lemma FirstAbsentIgnoresOthers(fs: FS, x: string, ps: seq<string>)
    requires x !in ps
    ensures FirstAbsent(fs - {x}, ps) == FirstAbsent(fs, ps)
    decreases |ps|
  {
  }

  /**
   With distinct paths, cleanup removes exactly the paths before the first
   missing one and nothing else.
   */
  lemma {:induction false} CleanupRemovesLeadingRun(fs: FS, ps: seq<string>)
    requires Distinct(ps)
    ensures Cleanup(fs, ps).Keys == fs.Keys - Leading(ps, FirstAbsent(fs, ps))
    decreases |ps|
  {
    if |ps| == 0 || ps[0] !in fs {
      assert Leading(ps, FirstAbsent(fs, ps)) == {};
    } else {
      var tail := ps[1..];
      assert Distinct(tail);
      assert ps[0] !in tail;
      FirstAbsentIgnoresOthers(fs, ps[0], tail);
      CleanupRemovesLeadingRun(fs - {ps[0]}, tail);
      var k := FirstAbsent(fs, ps);
      assert k == 1 + FirstAbsent(fs - {ps[0]}, tail);
      assert Leading(ps, k) == {ps[0]} + Leading(tail, k - 1) by {
        forall p | p in Leading(ps, k) ensures p in {ps[0]} + Leading(tail, k - 1) {
          var j :| 0 <= j < k && ps[j] == p;
          if j > 0 { assert p == tail[j - 1]; }
        }
        forall p | p in Leading(tail, k - 1) ensures p in Leading(ps, k) {
          var j :| 0 <= j < k - 1 && tail[j] == p;
          assert p == ps[j + 1];
        }
      }
    }
  }

  /** If every path is present, none survives cleanup. */
  lemma CleanupAllPresent(fs: FS, ps: seq<string>)
    requires Distinct(ps)
    requires forall j :: 0 <= j < |ps| ==> ps[j] in fs
    ensures forall j :: 0 <= j < |ps| ==> ps[j] !in Cleanup(fs, ps)
  {
  }

  /** A path is removed when it and every path before it are present. */
  lemma CleanupRemovesPresentRun(fs: FS, ps: seq<string>, n: nat)
    requires Distinct(ps)
    requires n < |ps| && forall k :: 0 <= k <= n ==> ps[k] in fs
    ensures ps[n] !in Cleanup(fs, ps)
  {
    CleanupRemovesLeadingRun(fs, ps);
    assert ps[n] in Leading(ps, FirstAbsent(fs, ps));
  }

  /**
   A missing path stops the cleanup: every later path that was present is
   still present, with its size.
   */
  lemma CleanupStopsAtMissing(fs: FS, ps: seq<string>, i: nat)
    requires Distinct(ps)
    requires i < |ps| && ps[i] !in fs
    ensures forall j :: i < j < |ps| && ps[j] in fs ==>
      ps[j] in Cleanup(fs, ps) && Cleanup(fs, ps)[ps[j]] == fs[ps[j]]
  {
    CleanupRemovesLeadingRun(fs, ps);
    var k := FirstAbsent(fs, ps);
    assert k <= i;
    forall j | i < j < |ps| && ps[j] in fs
      ensures ps[j] !in Leading(ps, k)
    {
    }
  }

  /** Cleaning up twice is the same as cleaning up once. */
  lemma CleanupIdempotent(fs: FS, ps: seq<string>)
    ensures Cleanup(Cleanup(fs, ps), ps) == Cleanup(fs, ps)
  {
  }
}
