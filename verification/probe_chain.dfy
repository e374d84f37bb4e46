/** The low-level prober's chain machine (probe.c): blkid_do_probe() resumes after the detector it reported last,
    blkid_probe_step_back() moves one detector back. The detectors themselves are an oracle. */
module ProbeChain {

  /** BLKID_NCHAINS: superblocks, topology, partitions. */
  const NCHAINS: int := 3

  datatype Outcome = Match | NoMatch | Fail

  /** What a chain does before its first detector: run, give up without a result, or fail. */
  datatype Bail = Run | BailNone | BailFail

  /** What the detectors answer on the device as it is now. */
  type Detectors = (int, int) -> Outcome

  // ---------- the order of detectors ----------

  /** The first thing a probing run meets: a match, a failing detector (-1: the chain itself), or the end. */
  datatype Hit = Found(c: int, i: int) | Failed(c: int, i: int) | End

  class Probe {
    const enabled: seq<bool>
    const n: seq<int>
    const bail: seq<Bail>
    /** BLKID_FL_NOSCAN_DEV */
    const noscan: bool
    /** cur_chain, -1 for NULL, and each chain's idx */
    var cur: int
    var idx: seq<int>

    /** A probe after blkid_probe_set_device(). */
    constructor (enabled: seq<bool>, n: seq<int>, bail: seq<Bail>, noscan: bool)
      requires |enabled| == |n| == |bail| == NCHAINS && !bail[0].BailFail? && forall c :: 0 <= c < NCHAINS ==> n[c] > 0
      ensures Valid() && Fresh()
      ensures this.enabled == enabled && this.n == n && this.bail == bail && this.noscan == noscan
    {
      this.enabled, this.n, this.bail, this.noscan := enabled, n, bail, noscan;
      cur, idx := -1, [-1, -1, -1];
    }

    /** Detectors of this chain are called at all. */
    predicate Runs(c: int)
      requires 0 <= c < NCHAINS && Shape()
    {
      enabled[c] && bail[c].Run?
    }

    /** superblocks_probe() has no early exit that is a failure. */
    ghost predicate Shape() {
      |enabled| == |n| == |bail| == NCHAINS && !bail[0].BailFail? && forall c :: 0 <= c < NCHAINS ==> n[c] > 0
    }

    ghost predicate Places(at: seq<int>)
      requires Shape()
    {
      |at| == NCHAINS && forall c :: 0 <= c < NCHAINS ==> -1 <= at[c] < n[c] && (!Runs(c) ==> at[c] == -1)
    }

    /** Chains before the current one are finished; the others are anywhere, since a run may begin behind another. */
    ghost predicate Valid()
      reads this
    {
      && Shape() && Places(idx) && -1 <= cur < NCHAINS
      && (forall c :: 0 <= c < cur && Runs(c) ==> idx[c] == n[c] - 1)
      && (cur >= 0 && Runs(cur) ==> idx[cur] >= 0)
    }

    /** Nothing has been probed since the last reset. */
    ghost predicate Fresh()
      reads this
    {
      cur == -1 && idx == [-1, -1, -1]
    }

    /** The last call said that all chains are done. */
    ghost predicate Finished()
      requires Shape() && Places(idx)
      reads this
    {
      cur == -1 && forall c :: 0 <= c < NCHAINS && Runs(c) ==> idx[c] == n[c] - 1
    }

    ghost predicate AtEnd(c: int)
      requires Shape() && |idx| == NCHAINS && 0 <= c < NCHAINS
      reads this
    {
      !enabled[c] || idx[c] + 1 == n[c] || idx[c] == -1
    }

    /** Where chain `c` is resumed. */
    ghost function Start(at: seq<int>, c: int): int
      requires |at| == NCHAINS && 0 <= c
    {
      if c < NCHAINS then at[c] + 1 else 0
    }

    /** The next detector to be considered. */
    ghost function Position(): (int, int)
      requires Valid()
      reads this
    {
      var c := if cur == -1 then 0 else if AtEnd(cur) then cur + 1 else cur;
      (c, Start(idx, c))
    }

    ghost predicate InRange(at: seq<int>, c: int, i: int)
      requires Shape()
    {
      Places(at) && 0 <= c <= NCHAINS && 0 <= i && (c < NCHAINS ==> i <= n[c])
    }

    /** The first match or failure from detector `i` of chain `c` on, in chain-then-index order, when the later chains
        are resumed behind their places `at`. */
    ghost function Search(d: Detectors, at: seq<int>, c: int, i: int): Hit
      requires Shape() && InRange(at, c, i)
      decreases NCHAINS - c, if c < NCHAINS then n[c] - i else 0
    {
      if c == NCHAINS then End
      else if !enabled[c] || bail[c].BailNone? then Search(d, at, c + 1, Start(at, c + 1))
      else if bail[c].BailFail? then Failed(c, -1)
      else if i == n[c] then Search(d, at, c + 1, Start(at, c + 1))
      else match d(c, i)
        case Match => Found(c, i)
        case Fail => Failed(c, i)
        case NoMatch => Search(d, at, c, i + 1)
    }

    lemma SearchStep(d: Detectors, at: seq<int>, c: int, i: int)
      requires Shape() && InRange(at, c, i) && c < NCHAINS && enabled[c]
      ensures Search(d, at, c, i) ==
        if bail[c].BailNone? then Search(d, at, c + 1, Start(at, c + 1))
        else if bail[c].BailFail? then Failed(c, -1)
        else if i == n[c] then Search(d, at, c + 1, Start(at, c + 1))
        else if d(c, i).Match? then Found(c, i)
        else if d(c, i).Fail? then Failed(c, i)
        else Search(d, at, c, i + 1)
    {
    }

    /** Only the places of the later chains matter. */
    lemma {:induction false} SearchSame(d: Detectors, at: seq<int>, to: seq<int>, c: int, i: int)
      requires Shape() && InRange(at, c, i) && Places(to) && forall e :: c < e < NCHAINS ==> at[e] == to[e]
      ensures Search(d, at, c, i) == Search(d, to, c, i)
      decreases NCHAINS - c, if c < NCHAINS then n[c] - i else 0
    {
      if c < NCHAINS {
        if !Runs(c) || i == n[c] {
          SearchSame(d, at, to, c + 1, Start(at, c + 1));
        } else {
          SearchSame(d, at, to, c, i + 1);
        }
      }
    }

    /** The driver's contract (superblocks_probe(), topology_probe(), partitions_probe()): resume at idx + 1 and stop at
        a match or a failure; at the end idx is left on the last detector; a chain that gives up leaves idx alone. */
    method Drive(d: Detectors) returns (rc: int)
      requires Shape() && Places(idx) && 0 <= cur < NCHAINS && enabled[cur]
      modifies this`idx
      ensures Places(idx) && idx == old(idx)[cur := idx[cur]]
      ensures Runs(cur) ==> idx[cur] >= 0 && (rc == 1 ==> idx[cur] == n[cur] - 1)
      ensures rc <= 1 && (rc == 0 ==> Runs(cur))
      ensures old(Search(d, idx, cur, idx[cur] + 1)) ==
        if rc == 0 then Found(cur, idx[cur])
        else if rc == 1 then Search(d, idx, cur + 1, Start(idx, cur + 1))
        else Failed(cur, idx[cur])
    {
      hide Search;
      ghost var at := idx;
      SearchStep(d, at, cur, at[cur] + 1);
      if bail[cur].BailNone? {
        return 1;
      }
      if bail[cur].BailFail? {
        return -1;
      }
      var i := idx[cur] + 1;
      while i < n[cur]
        invariant 0 <= i <= n[cur] && idx == at[cur := i - 1]
        invariant Search(d, at, cur, i) == Search(d, at, cur, at[cur] + 1)
      {
        idx := idx[cur := i];
        SearchStep(d, at, cur, i);
        match d(cur, i)
        case Match => return 0;
        case Fail => return -1;
        case NoMatch =>
        i := i + 1;
      }
      SearchStep(d, at, cur, n[cur]);
      SearchSame(d, at, idx, cur + 1, Start(at, cur + 1));
      return 1;
    }

    /** What a return code of blkid_do_probe() says, with the place it leaves behind. */
    ghost function HitOf(rc: int): Hit
      reads this
    {
      var i := if 0 <= cur < |idx| then idx[cur] else -1;
      if rc == 0 then Found(cur, i) else if rc == 1 then End else Failed(cur, i)
    }

    /** The current chain is about to be driven. */
    ghost predicate Entered()
      reads this
    {
      Shape() && Places(idx) && 0 <= cur < NCHAINS && forall c :: 0 <= c < cur && Runs(c) ==> idx[c] == n[c] - 1
    }

    /** The choice of the chain: the first one, the next one, or the same; blkid_probe_end() behind the last one. */
    method Advance(ghost d: Detectors) returns (done: bool)
      requires Valid()
      modifies this`cur
      ensures done ==> Valid() && Finished() && old(Search(d, idx, Position().0, Position().1)) == End
      ensures !done ==> Entered()
      ensures !done ==>
        Search(d, idx, cur, idx[cur] + 1) == old(Search(d, idx, Position().0, Position().1))
      ensures !done ==> cur > old(cur) || (cur == old(cur) && !AtEnd(cur))
    {
      if cur == -1 {
        cur := 0;
      } else if !enabled[cur] || idx[cur] + 1 == n[cur] || idx[cur] == -1 {
        if cur + 1 < NCHAINS {
          cur := cur + 1;
        } else {
          cur := -1;
          return true;
        }
      }
      return false;
    }

    /** blkid_do_probe(): it ends, and reports the first match or failure from its position on. At the end it forgets
        the current chain, so that a further call begins with the first one again, each chain behind its last place. */
    method DoProbe(d: Detectors) returns (rc: int)
      requires Valid()
      modifies this`cur, this`idx
      ensures Valid() && rc <= 1
      ensures noscan ==> rc == 1 && cur == old(cur) && idx == old(idx)
      ensures !noscan ==> HitOf(rc) == old(Search(d, idx, Position().0, Position().1))
      ensures !noscan && rc == 1 ==> Finished()
      ensures !noscan && rc != 1 ==> 0 <= cur && enabled[cur] && (rc == 0 ==> Runs(cur))
      ensures !noscan && rc != 1 ==> forall c :: cur < c < NCHAINS ==> idx[c] == old(idx)[c]
    {
      if noscan {
        return 1;
      }
      rc := 1;
      ghost var hit := Search(d, idx, Position().0, Position().1);
      while true
        invariant Valid() && rc == 1
        invariant Search(d, idx, Position().0, Position().1) == hit
        invariant forall c :: cur < c < NCHAINS ==> idx[c] == old(idx)[c]
        decreases NCHAINS - cur, if cur >= 0 && !AtEnd(cur) then 1 else 0
      {
        var done := Advance(d);
        if done {
          return;
        }
        rc := DriveEnabled(d);
        if rc != 1 {
          return;
        }
      }
    }

    /** The rest of one round: a disabled chain is passed over. */
    method DriveEnabled(d: Detectors) returns (rc: int)
      requires Entered()
      modifies this`idx
      ensures Valid() && rc <= 1 && idx == old(idx)[cur := idx[cur]]
      ensures rc == 1 ==> AtEnd(cur)
      ensures rc == 1 ==>
        Search(d, idx, Position().0, Position().1) == old(Search(d, idx, cur, idx[cur] + 1))
      ensures rc != 1 ==> HitOf(rc) == old(Search(d, idx, cur, idx[cur] + 1))
      ensures rc != 1 ==> enabled[cur] && (rc == 0 ==> Runs(cur))
    {
      rc := 1;
      if enabled[cur] {
        rc := Drive(d);
      }
    }

    /** blkid_probe_step_back() */
    method StepBack() returns (rc: int)
      requires Valid()
      modifies this`cur, this`idx
      ensures Valid()
      ensures rc == (if old(cur) == -1 then -1 else 0)
      ensures old(cur) == -1 ==> cur == -1 && idx == old(idx)
      ensures old(cur) != -1 ==>
        var c := old(cur);
        && idx == old(idx)[c := if old(idx)[c] >= 0 then old(idx)[c] - 1 else -1]
        && cur == if idx[c] != -1 then c else if c > 1 then c - 1 else -1
    {
      if cur == -1 {
        return -1;
      }
      var c := cur;
      if idx[c] >= 0 {
        idx := idx[c := idx[c] - 1];
      }
      if idx[c] == -1 {
        var prev := if c > 0 then c - 1 else 0;
        cur := if prev > 0 then prev else -1;
      }
      return 0;
    }

    /** blkid_reset_probe() */
    method Reset()
      requires Valid()
      modifies this`cur, this`idx
      ensures Valid() && Fresh()
    {
      cur := -1;
      for c := 0 to NCHAINS
        invariant cur == -1 && |idx| == NCHAINS && forall e :: 0 <= e < c ==> idx[e] == -1
      {
        idx := idx[c := -1];
      }
      assert idx == [-1, -1, -1];
    }

    // ---------- whole runs ----------

    /** Every match from a position on, up to the first failure. */
    ghost function Reports(d: Detectors, at: seq<int>, c: int, i: int): seq<(int, int)>
      requires Shape() && InRange(at, c, i)
      decreases NCHAINS - c, if c < NCHAINS then n[c] - i else 0
    {
      if c == NCHAINS then []
      else if !enabled[c] || bail[c].BailNone? then Reports(d, at, c + 1, Start(at, c + 1))
      else if bail[c].BailFail? then []
      else if i == n[c] then Reports(d, at, c + 1, Start(at, c + 1))
      else match d(c, i)
        case Match => [(c, i)] + Reports(d, at, c, i + 1)
        case Fail => []
        case NoMatch => Reports(d, at, c, i + 1)
    }

    lemma {:induction false} ReportsSame(d: Detectors, at: seq<int>, to: seq<int>, c: int, i: int)
      requires Shape() && InRange(at, c, i) && Places(to) && forall e :: c < e < NCHAINS ==> at[e] == to[e]
      ensures Reports(d, at, c, i) == Reports(d, to, c, i)
      decreases NCHAINS - c, if c < NCHAINS then n[c] - i else 0
    {
      if c < NCHAINS {
        if !Runs(c) || i == n[c] {
          ReportsSame(d, at, to, c + 1, Start(at, c + 1));
        } else {
          ReportsSame(d, at, to, c, i + 1);
        }
      }
    }

    lemma {:induction false} ReportsSearch(d: Detectors, at: seq<int>, c: int, i: int)
      requires Shape() && InRange(at, c, i)
      ensures var h := Search(d, at, c, i);
        if h.Found? then 0 <= h.c < NCHAINS && 0 <= h.i < n[h.c]
          && Reports(d, at, c, i) == [(h.c, h.i)] + Reports(d, at, h.c, h.i + 1)
        else Reports(d, at, c, i) == []
      decreases NCHAINS - c, if c < NCHAINS then n[c] - i else 0
    {
      if c < NCHAINS {
        if !Runs(c) || i == n[c] {
          if !bail[c].BailFail? || !enabled[c] { ReportsSearch(d, at, c + 1, Start(at, c + 1)); }
        } else if d(c, i).NoMatch? {
          ReportsSearch(d, at, c, i + 1);
        }
      }
    }

    /** `(c, i)` comes before `(e, j)` in chain-then-index order. */
    ghost predicate Before(p: (int, int), q: (int, int)) { p.0 < q.0 || (p.0 == q.0 && p.1 < q.1) }

    ghost predicate NoFailure(d: Detectors)
      requires Shape()
    {
      forall c, i :: 0 <= c < NCHAINS && 0 <= i < n[c] && enabled[c] ==> !bail[c].BailFail? && d(c, i) != Fail
    }

    /** Detector `j` of chain `e` is still to come. */
    ghost predicate Ahead(at: seq<int>, c: int, i: int, e: int, j: int)
      requires Shape() && Places(at)
    {
      0 <= e < NCHAINS && 0 <= j < n[e] && ((e == c && j >= i) || (e > c && j > at[e]))
    }

    /** Without failures exactly the matching detectors still to come are reported, once each and in order. */
    lemma {:induction false} ReportsAll(d: Detectors, at: seq<int>, c: int, i: int)
      requires Shape() && InRange(at, c, i) && NoFailure(d)
      ensures var r := Reports(d, at, c, i);
        && (forall k, l :: 0 <= k < l < |r| ==> Before(r[k], r[l]))
        && (forall e, j :: (e, j) in r <==> Ahead(at, c, i, e, j) && Runs(e) && d(e, j) == Match)
      decreases NCHAINS - c, if c < NCHAINS then n[c] - i else 0
    {
      if c < NCHAINS {
        assert d(c, 0) != Fail || !enabled[c];
        if !Runs(c) || i == n[c] {
          ReportsAll(d, at, c + 1, Start(at, c + 1));
        } else {
          assert d(c, i) != Fail;
          ReportsAll(d, at, c, i + 1);
          var r, t := Reports(d, at, c, i), Reports(d, at, c, i + 1);
          if d(c, i).Match? {
            assert r == [(c, i)] + t;
            forall k, l | 0 <= k < l < |r| ensures Before(r[k], r[l]) {
              assert r[l] == t[l - 1] && t[l - 1] in t;
              if k == 0 {
                assert Ahead(at, c, i + 1, r[l].0, r[l].1);
              } else {
                assert r[k] == t[k - 1];
              }
            }
          }
        }
      }
    }

    /** After the end a run reports nothing, and fails again at the first chain that cannot be begun, if there is
        one. */
    lemma {:induction false} FinishedReports(d: Detectors, at: seq<int>, c: int)
      requires Shape() && Places(at) && 0 <= c <= NCHAINS
      requires forall e :: c <= e < NCHAINS && Runs(e) ==> at[e] == n[e] - 1
      ensures Reports(d, at, c, Start(at, c)) == []
      ensures var h := Search(d, at, c, Start(at, c));
        var stop := if h.End? then NCHAINS else h.c;
        && c <= stop <= NCHAINS && (forall e :: c <= e < stop && enabled[e] ==> !bail[e].BailFail?)
        && !h.Found? && (h.Failed? ==> stop < NCHAINS && enabled[stop] && bail[stop].BailFail? && h.i == -1)
      decreases NCHAINS - c
    {
      if c < NCHAINS && !(enabled[c] && bail[c].BailFail?) {
        FinishedReports(d, at, c + 1);
      }
    }

    /** `while (blkid_do_probe(pr) == 0) ...` ends and sees every report. */
    method ProbeLoop(d: Detectors) returns (rc: int, found: seq<(int, int)>)
      requires Valid()
      modifies this`cur, this`idx
      ensures Valid() && rc != 0
      ensures noscan ==> rc == 1 && found == []
      ensures !noscan ==> found == old(Reports(d, idx, Position().0, Position().1))
      ensures !noscan && rc == 1 ==> Finished()
      ensures !noscan && NoFailure(d) ==> rc == 1
    {
      ghost var all := Reports(d, idx, Position().0, Position().1);
      found := [];
      rc := 0;
      while rc == 0
        invariant Valid() && (noscan ==> found == [] && (rc != 0 ==> rc == 1))
        invariant !noscan && rc == 0 ==> found + Reports(d, idx, Position().0, Position().1) == all
        invariant !noscan && rc != 0 ==> found == all && (NoFailure(d) ==> rc == 1) && (rc == 1 ==> Finished())
        decreases rc == 0, if noscan then 0 else |all| - |found|
      {
        rc, found := ProbeNext(d, found, all);
      }
    }

    /** One round of the loop. */
    method ProbeNext(d: Detectors, found0: seq<(int, int)>, ghost all: seq<(int, int)>)
        returns (rc: int, found: seq<(int, int)>)
      requires Valid() && (noscan ==> found0 == [])
      requires !noscan ==> found0 + Reports(d, idx, Position().0, Position().1) == all
      modifies this`cur, this`idx
      ensures Valid() && (noscan ==> found == [] && rc == 1)
      ensures !noscan && rc == 0 ==>
        found + Reports(d, idx, Position().0, Position().1) == all && |found| == |found0| + 1
      ensures !noscan && rc != 0 ==> found == all && (NoFailure(d) ==> rc == 1) && (rc == 1 ==> Finished())
    {
      ghost var at, p := idx, Position();
      ReportsSearch(d, at, p.0, p.1);
      NoFailureNoFailed(d, at, p.0, p.1);
      found := found0;
      ghost var rest := Reports(d, at, p.0, p.1);
      rc := DoProbe(d);
      if !noscan && rc == 0 {
        ReportsSame(d, at, idx, cur, idx[cur] + 1);
        NextPosition(d);
        assert rest == [(cur, idx[cur])] + Reports(d, at, cur, idx[cur] + 1);
        found := found + [(cur, idx[cur])];
      } else {
        assert !noscan ==> rest == [] && found0 + [] == found0;
      }
    }

    lemma NextPosition(d: Detectors)
      requires Valid() && 0 <= cur && Runs(cur)
      ensures Reports(d, idx, cur, idx[cur] + 1) == Reports(d, idx, Position().0, Position().1)
    {
    }

    lemma {:induction false} NoFailureNoFailed(d: Detectors, at: seq<int>, c: int, i: int)
      requires Shape() && InRange(at, c, i)
      ensures NoFailure(d) ==> !Search(d, at, c, i).Failed?
      decreases NCHAINS - c, if c < NCHAINS then n[c] - i else 0
    {
      if c < NCHAINS && NoFailure(d) {
        assert d(c, 0) != Fail || !enabled[c];
        if !Runs(c) || i == n[c] {
          NoFailureNoFailed(d, at, c + 1, Start(at, c + 1));
        } else if d(c, i) == NoMatch {
          NoFailureNoFailed(d, at, c, i + 1);
        }
      }
    }

    /** A loop from a reset probe: every matching detector of every running chain exactly once, in order; and once more
        after the end it sees nothing. */
    method ProbeTwice(d: Detectors) returns (found: seq<(int, int)>, rc: int, again: seq<(int, int)>)
      requires Valid() && !noscan && NoFailure(d)
      modifies this`cur, this`idx
      ensures Valid() && Finished() && rc == 1 && again == []
      ensures forall k, l :: 0 <= k < l < |found| ==> Before(found[k], found[l])
      ensures forall e, j :: (e, j) in found <==> 0 <= e < NCHAINS && 0 <= j < n[e] && Runs(e) && d(e, j) == Match
    {
      Reset();
      ReportsAll(d, idx, 0, 0);
      rc, found := ProbeLoop(d);
      FinishedReports(d, idx, 0);
      rc, again := ProbeLoop(d);
    }

    // ---------- stepping back ----------

    /** After a report and a step back, the next call considers the reported detector first, whatever the device holds
        by then. */
    method StepBackAfter(d: Detectors) returns (rc: int, ghost c: int, ghost i: int)
      requires Valid() && !noscan
      modifies this`cur, this`idx
      ensures Valid() && (rc == 0 ==> old(Search(d, idx, Position().0, Position().1)) == Found(c, i))
      ensures rc == 0 ==> 0 <= c < NCHAINS && 0 <= i < n[c]
      ensures rc == 0 ==>
        forall e: Detectors :: Search(e, idx, Position().0, Position().1) == Search(e, idx, c, i)
    {
      rc := DoProbe(d);
      c, i := cur, if cur >= 0 then idx[cur] else -1;
      if rc == 0 {
        var _ := StepBack();
        forall e: Detectors ensures Search(e, idx, Position().0, Position().1) == Search(e, idx, c, i) {
          Reconsidered(e, c, i);
        }
      }
    }

    /** The position after a step back from detector `i` of chain `c`. */
    lemma Reconsidered(e: Detectors, c: int, i: int)
      requires Valid() && 0 <= c < NCHAINS && 0 <= i < n[c] && Runs(c) && idx[c] == i - 1
      requires cur == if i > 0 then c else if c > 1 then c - 1 else -1
      requires forall b :: 0 <= b < c && Runs(b) ==> idx[b] == n[b] - 1
      ensures Search(e, idx, Position().0, Position().1) == Search(e, idx, c, i)
    {
      if i == 0 && c == 1 {
        assert Position() == (0, idx[0] + 1);
        assert Search(e, idx, 0, idx[0] + 1) == Search(e, idx, 1, 0);
      } else if i == 0 && c == 2 {
        assert Position() == (2, 0);
      } else {
        assert Position() == (c, i);
      }
    }

    /** After the end there is no step back, and the next call fails again at the first enabled chain that cannot be
        begun, or says again that all is done. */
    method AfterEnd(d: Detectors) returns (back: int, rc: int)
      requires Valid() && !noscan && Finished()
      modifies this`cur, this`idx
      ensures Valid() && back == -1 && rc != 0
      ensures rc == 1 <==> forall c :: 0 <= c < NCHAINS && enabled[c] ==> !bail[c].BailFail?
      ensures rc == 1 ==> Finished()
      ensures rc < 0 ==> 0 <= cur && enabled[cur] && bail[cur].BailFail?
      ensures rc < 0 ==> forall c :: 0 <= c < cur && enabled[c] ==> !bail[c].BailFail?
    {
      back := StepBack();
      FinishedReports(d, idx, 0);
      rc := DoProbe(d);
    }
  }
}
