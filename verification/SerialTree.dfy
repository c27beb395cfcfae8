/** The tree of revoked serial ranges of ssh/krl.c.  The red-black tree is any binary
    search tree over the ranges: `Shape` is whatever the balancing has left, and every
    result holds for all shapes. */
module SerialTree {
  import opened Wire

  datatype Range = Range(lo: U64, hi: U64)

  datatype Shape = Leaf | Node(left: Shape, entry: Range, right: Shape)

  function InOrder(t: Shape): seq<Range>
  {
    match t
    case Leaf => []
    case Node(l, e, r) => InOrder(l) + [e] + InOrder(r)
  }

  predicate Overlap(a: Range, b: Range) { a.hi >= b.lo && a.lo <= b.hi }

  /** serial_cmp: overlapping ranges compare equal. */
  function SerialCmp(a: Range, b: Range): int
  {
    if Overlap(a, b) then 0 else if a.lo < b.lo then -1 else 1
  }

  ghost predicate Disjoint(s: seq<Range>)
  {
    && (forall i | 0 <= i < |s| :: s[i].lo <= s[i].hi)
    && (forall i, j | 0 <= i < j < |s| :: s[i].hi < s[j].lo)
  }

  /** Sorted, disjoint and with a gap between neighbours: what insertion maintains. */
  ghost predicate Canonical(s: seq<Range>)
  {
    && (forall i | 0 <= i < |s| :: s[i].lo <= s[i].hi)
    && (forall i, j | 0 <= i < j < |s| :: s[i].hi + 1 < s[j].lo)
  }

  predicate In(x: int, r: Range) { r.lo <= x <= r.hi }

  ghost predicate Covers(s: seq<Range>, x: int)
  {
    exists i | 0 <= i < |s| :: In(x, s[i])
  }

  ghost predicate SameCover(a: seq<Range>, b: seq<Range>)
  {
    forall x: int :: Covers(a, x) <==> Covers(b, x)
  }

  // ----- Searching

  /** RB_FIND, as the in-order position of the node it returns. */
  function Find(t: Shape, key: Range): Option<nat>
  {
    match t
    case Leaf => None
    case Node(l, e, r) =>
      var c := SerialCmp(key, e);
      if c < 0 then Find(l, key)
      else if c > 0 then Shift(Find(r, key), |InOrder(l)| + 1)
      else Some(|InOrder(l)|)
  }

  /** RB_NFIND: the node met that compares equal, or else the least greater one. */
  function NFind(t: Shape, key: Range): Option<nat>
  {
    match t
    case Leaf => None
    case Node(l, e, r) =>
      var c := SerialCmp(key, e);
      if c < 0 then
        var k := NFind(l, key);
        if k.Some? then k else Some(|InOrder(l)|)
      else if c > 0 then Shift(NFind(r, key), |InOrder(l)| + 1)
      else Some(|InOrder(l)|)
  }

  /** Where RB_INSERT links a new node, or None when it returns an existing one instead. */
  function InsertPos(t: Shape, key: Range): Option<nat>
  {
    match t
    case Leaf => Some(0)
    case Node(l, e, r) =>
      var c := SerialCmp(key, e);
      if c < 0 then InsertPos(l, key)
      else if c > 0 then Shift(InsertPos(r, key), |InOrder(l)| + 1)
      else None
  }

  function Shift(k: Option<nat>, n: nat): Option<nat>
  {
    match k
    case None => None
    case Some(v) => Some(v + n)
  }

  /** The halves of an ordered tree are ordered and lie on either side of its root. */
  lemma {:induction false} Halves(l: Shape, e: Range, r: Shape)
    requires Disjoint(InOrder(Node(l, e, r)))
    ensures Disjoint(InOrder(l)) && Disjoint(InOrder(r)) && e.lo <= e.hi
    ensures forall i | 0 <= i < |InOrder(l)| :: InOrder(l)[i].hi < e.lo
    ensures forall i | 0 <= i < |InOrder(r)| :: e.hi < InOrder(r)[i].lo
  {
    DisjointParts(InOrder(l), e, InOrder(r));
  }

  lemma DisjointParts(a: seq<Range>, e: Range, b: seq<Range>)
    requires Disjoint(a + [e] + b)
    ensures Disjoint(a) && Disjoint(b) && e.lo <= e.hi
    ensures forall i | 0 <= i < |a| :: a[i].hi < e.lo
    ensures forall i | 0 <= i < |b| :: e.hi < b[i].lo
  {
    var s, n := a + [e] + b, |a|;
    assert s[n] == e;
    assert a == s[..n] && b == s[n + 1..];
  }

  lemma {:induction false} InOrderAt(l: Shape, e: Range, r: Shape)
    ensures var s, n := InOrder(Node(l, e, r)), |InOrder(l)|;
            forall i | 0 <= i < |s| ::
              s[i] == if i < n then InOrder(l)[i] else if i == n then e else InOrder(r)[i - n - 1]
  {
  }

  /** serial_cmp is no total order, yet on disjoint ranges the search finds an overlapping
      node exactly when there is one. */
  lemma {:induction false} FindFindsOverlap(t: Shape, key: Range)
    requires Disjoint(InOrder(t)) && key.lo <= key.hi
    ensures match Find(t, key)
            case Some(k) => k < |InOrder(t)| && Overlap(key, InOrder(t)[k])
            case None => forall i | 0 <= i < |InOrder(t)| :: !Overlap(key, InOrder(t)[i])
  {
    match t {
      case Leaf =>
      case Node(l, e, r) =>
        Halves(l, e, r);
        FindFindsOverlap(l, key);
        FindFindsOverlap(r, key);
        var s, n := InOrder(t), |InOrder(l)|;
        assert s[n] == e;
        InOrderAt(l, e, r);
    }
  }

  /** What RB_NFIND may return: a range that overlaps, or the first one above all below. */
  ghost predicate Nearest(s: seq<Range>, key: Range, found: Option<nat>)
  {
    match found
    case Some(k) =>
      k < |s| && (Overlap(key, s[k]) || (key.hi < s[k].lo && forall i | 0 <= i < k :: s[i].hi < key.lo))
    case None => forall i | 0 <= i < |s| :: s[i].hi < key.lo
  }

  lemma {:induction false} NFindSpec(t: Shape, key: Range)
    requires Disjoint(InOrder(t)) && key.lo <= key.hi
    ensures Nearest(InOrder(t), key, NFind(t, key))
  {
    match t {
      case Leaf =>
      case Node(l, e, r) =>
        Halves(l, e, r);
        if SerialCmp(key, e) < 0 {
          NFindSpec(l, key);
          NearestLeft(InOrder(l), e, InOrder(r), key, NFind(l, key));
        } else if SerialCmp(key, e) > 0 {
          NFindSpec(r, key);
          NearestRight(InOrder(l), e, InOrder(r), key, NFind(r, key));
        }
    }
  }

  lemma NearestLeft(a: seq<Range>, e: Range, b: seq<Range>, key: Range, found: Option<nat>)
    requires Nearest(a, key, found) && key.hi < e.lo
    ensures Nearest(a + [e] + b, key, if found.Some? then found else Some(|a|))
  {
    var s := a + [e] + b;
    assert s[|a|] == e && forall i | 0 <= i < |a| :: s[i] == a[i];
  }

  lemma NearestRight(a: seq<Range>, e: Range, b: seq<Range>, key: Range, found: Option<nat>)
    requires Nearest(b, key, found) && e.hi < key.lo && forall i | 0 <= i < |a| :: a[i].hi < key.lo
    ensures Nearest(a + [e] + b, key, Shift(found, |a| + 1))
  {
    var s, n := a + [e] + b, |a|;
    assert forall i | 0 <= i < n :: s[i] == a[i];
    assert s[n] == e;
    assert forall i | n < i < |s| :: s[i] == b[i - n - 1];
    if found.Some? { assert s[found.value + n + 1] == b[found.value]; }
  }

  ghost predicate Clear(s: seq<Range>, key: Range) { forall i | 0 <= i < |s| :: !Overlap(key, s[i]) }

  /** `key` belongs between the first `k` ranges and the others. */
  ghost predicate Splits(s: seq<Range>, key: Range, k: nat)
  {
    && k <= |s|
    && (forall i | 0 <= i < k :: s[i].hi < key.lo)
    && (forall i | k <= i < |s| :: key.hi < s[i].lo)
  }

  lemma {:induction false} ClearHalves(l: Shape, e: Range, r: Shape, key: Range)
    requires Clear(InOrder(Node(l, e, r)), key)
    ensures Clear(InOrder(l), key) && Clear(InOrder(r), key) && !Overlap(key, e)
  {
    var s, n := InOrder(Node(l, e, r)), |InOrder(l)|;
    assert forall i | 0 <= i < n :: InOrder(l)[i] == s[i];
    assert forall i | 0 <= i < |InOrder(r)| :: InOrder(r)[i] == s[n + 1 + i];
    assert s[n] == e;
  }

  lemma {:induction false} SplitsNode(l: Shape, e: Range, r: Shape, key: Range, k: nat)
    requires Disjoint(InOrder(Node(l, e, r)))
    requires (key.hi < e.lo && Splits(InOrder(l), key, k))
             || (e.hi < key.lo && k > |InOrder(l)| && Splits(InOrder(r), key, k - |InOrder(l)| - 1))
    ensures Splits(InOrder(Node(l, e, r)), key, k)
  {
    Halves(l, e, r);
    InOrderAt(l, e, r);
    assert InOrder(Node(l, e, r))[|InOrder(l)|] == e;
  }

  lemma {:induction false} InsertPosSpec(t: Shape, key: Range)
    requires Disjoint(InOrder(t)) && key.lo <= key.hi && Clear(InOrder(t), key)
    ensures InsertPos(t, key).Some? && Splits(InOrder(t), key, InsertPos(t, key).value)
  {
    match t {
      case Leaf =>
      case Node(l, e, r) =>
        Halves(l, e, r);
        ClearHalves(l, e, r, key);
        assert e.lo <= e.hi by { assert InOrder(t)[|InOrder(l)|] == e; }
        if SerialCmp(key, e) < 0 { InsertPosSpec(l, key); } else { InsertPosSpec(r, key); }
        SplitsNode(l, e, r, key, InsertPos(t, key).value);
    }
  }

  /** When RB_NFIND returns nothing that overlaps, nothing overlaps. */
  lemma {:induction false} NFindClear(t: Shape, key: Range)
    requires Disjoint(InOrder(t)) && key.lo <= key.hi
    ensures match NFind(t, key)
            case None => Clear(InOrder(t), key)
            case Some(k) => k < |InOrder(t)| && (SerialCmp(InOrder(t)[k], key) == 0 || Clear(InOrder(t), key))
  {
    NFindSpec(t, key);
  }

  // ----- The canonical form

  /** The range list that denotes `s` together with lo..hi. */
  function InsertRange(s: seq<Range>, lo: U64, hi: U64): (r: seq<Range>)
    requires lo <= hi
    decreases |s|
  {
    if s == [] then [Range(lo, hi)]
    else if s[0].hi + 1 < lo then [s[0]] + InsertRange(s[1..], lo, hi)
    else if hi + 1 < s[0].lo then [Range(lo, hi)] + s
    else InsertRange(s[1..], if lo < s[0].lo then lo else s[0].lo, if hi > s[0].hi then hi else s[0].hi)
  }

  lemma CanonicalTail(s: seq<Range>)
    requires Canonical(s) && s != []
    ensures Canonical(s[1..])
    ensures forall x :: Covers(s, x) <==> In(x, s[0]) || Covers(s[1..], x)
    ensures forall x :: Covers(s[1..], x) ==> s[0].hi + 1 < x
  {
    assert forall i | 0 <= i < |s| - 1 :: s[1..][i] == s[i + 1];
    forall x ensures Covers(s, x) <==> In(x, s[0]) || Covers(s[1..], x) {
      if Covers(s, x) {
        var i :| 0 <= i < |s| && In(x, s[i]);
        assert i == 0 || In(x, s[1..][i - 1]);
      }
      if Covers(s[1..], x) {
        var i :| 0 <= i < |s| - 1 && In(x, s[1..][i]);
        assert In(x, s[i + 1]);
      }
      if In(x, s[0]) { assert Covers(s, x); }
    }
  }

  lemma CoversCons(a: Range, s: seq<Range>, x: int)
    ensures Covers([a] + s, x) <==> In(x, a) || Covers(s, x)
  {
    if Covers(s, x) {
      var i :| 0 <= i < |s| && In(x, s[i]);
      assert In(x, ([a] + s)[i + 1]);
    }
    if In(x, a) { assert In(x, ([a] + s)[0]); }
    if Covers([a] + s, x) {
      var i :| 0 <= i < |s| + 1 && In(x, ([a] + s)[i]);
      assert i == 0 || In(x, s[i - 1]);
    }
  }

  lemma {:induction false} InsertRangeSpec(s: seq<Range>, lo: U64, hi: U64)
    requires Canonical(s) && lo <= hi
    ensures Canonical(InsertRange(s, lo, hi))
    ensures forall x :: Covers(InsertRange(s, lo, hi), x) <==> Covers(s, x) || lo <= x <= hi
    decreases |s|
  {
    var r := InsertRange(s, lo, hi);
    if s == [] {
      assert In(lo, r[0]);
      forall x ensures Covers(r, x) <==> lo <= x <= hi { CoversCons(Range(lo, hi), [], x); }
    } else {
      CanonicalTail(s);
      if s[0].hi + 1 < lo {
        var t := InsertRange(s[1..], lo, hi);
        InsertRangeSpec(s[1..], lo, hi);
        forall i | 0 <= i < |t| ensures s[0].hi + 1 < t[i].lo {
          assert In(t[i].lo, t[i]);
          assert Covers(t, t[i].lo);
        }
        forall x ensures Covers(r, x) <==> Covers(s, x) || lo <= x <= hi { CoversCons(s[0], t, x); }
      } else if hi + 1 < s[0].lo {
        forall x ensures Covers(r, x) <==> Covers(s, x) || lo <= x <= hi { CoversCons(Range(lo, hi), s, x); }
      } else {
        InsertRangeSpec(s[1..], if lo < s[0].lo then lo else s[0].lo, if hi > s[0].hi then hi else s[0].hi);
      }
    }
  }

  /** A set of serials has one canonical range list. */
  lemma {:induction false} CanonicalUnique(a: seq<Range>, b: seq<Range>)
    requires Canonical(a) && Canonical(b) && SameCover(a, b)
    ensures a == b
    decreases |a|
  {
    if a == [] || b == [] {
      if a != [] { assert In(a[0].lo, a[0]); assert Covers(a, a[0].lo); }
      if b != [] { assert In(b[0].lo, b[0]); assert Covers(b, b[0].lo); }
    } else {
      CanonicalTail(a);
      CanonicalTail(b);
      SameHead(a, b);
      forall x: int ensures Covers(a[1..], x) <==> Covers(b[1..], x) {
        assert Covers(a, x) <==> Covers(b, x);
      }
      CanonicalUnique(a[1..], b[1..]);
      assert a == [a[0]] + a[1..] && b == [b[0]] + b[1..];
    }
  }

  lemma SameHead(a: seq<Range>, b: seq<Range>)
    requires Canonical(a) && Canonical(b) && SameCover(a, b) && a != [] && b != []
    ensures a[0] == b[0]
  {
    CanonicalTail(a);
    CanonicalTail(b);
    assert In(a[0].lo, a[0]) && In(b[0].lo, b[0]);
    assert Covers(a, a[0].lo) && Covers(b, b[0].lo);
    assert Covers(b, a[0].lo) && Covers(a, b[0].lo);
    assert a[0].lo == b[0].lo;
    HeadNoLonger(a, b);
    HeadNoLonger(b, a);
  }

  lemma HeadNoLonger(a: seq<Range>, b: seq<Range>)
    requires Canonical(a) && Canonical(b) && SameCover(a, b) && a != [] && b != []
    requires a[0].lo == b[0].lo
    ensures b[0].hi <= a[0].hi
  {
    var x := a[0].hi + 1;
    CanonicalTail(a);
    assert !Covers(a, x);
    assert !Covers(b, x);
    assert !In(x, b[0]);
  }

  lemma CoversConcat(a: seq<Range>, b: seq<Range>, x: int)
    ensures Covers(a + b, x) <==> Covers(a, x) || Covers(b, x)
  {
    if Covers(a, x) {
      var i :| 0 <= i < |a| && In(x, a[i]);
      assert In(x, (a + b)[i]);
    }
    if Covers(b, x) {
      var i :| 0 <= i < |b| && In(x, b[i]);
      assert In(x, (a + b)[|a| + i]);
    }
    if Covers(a + b, x) {
      var i :| 0 <= i < |a + b| && In(x, (a + b)[i]);
      assert if i < |a| then In(x, a[i]) else In(x, b[i - |a|]);
    }
  }

  // ----- Insertion

  /** In the middle of an insertion into `s`: entries p..q and lo..hi have become `e`. */
  ghost predicate Coalesced(s: seq<Range>, lo: U64, hi: U64, p: nat, e: Range, q: nat)
  {
    && p <= q <= |s|
    && e.lo <= lo <= hi <= e.hi
    && (p > 0 ==> s[p - 1].hi < e.hi)
    && (q < |s| ==> e.lo < s[q].lo)
    && forall x: int :: In(x, e) <==> lo <= x <= hi || Covers(s[p..q], x)
  }

  lemma StartFresh(s: seq<Range>, lo: U64, hi: U64, p: nat)
    requires Canonical(s) && lo <= hi && p <= |s|
    requires Splits(s, Range(lo, hi), p)
    ensures Coalesced(s, lo, hi, p, Range(lo, hi), p)
  {
    assert s[p..p] == [];
  }

  lemma StartGrown(s: seq<Range>, lo: U64, hi: U64, p: nat, e: Range)
    requires Canonical(s) && lo <= hi && p < |s| && Overlap(Range(lo, hi), s[p])
    requires e.lo == if s[p].lo > lo then lo else s[p].lo
    requires e.hi == if s[p].hi < hi then hi else s[p].hi
    ensures Coalesced(s, lo, hi, p, e, p + 1)
  {
    assert s[p..p + 1] == [s[p]] + [];
    forall x: int ensures In(x, e) <==> lo <= x <= hi || Covers(s[p..p + 1], x) {
      CoversCons(s[p], [], x);
    }
  }

  lemma TakePredecessor(s: seq<Range>, lo: U64, hi: U64, p: nat, e: Range, q: nat)
    requires Canonical(s) && Coalesced(s, lo, hi, p, e, q)
    requires p > 0 && e.lo <= s[p - 1].hi + 1
    ensures Coalesced(s, lo, hi, p - 1, if s[p - 1].lo < e.lo then e.(lo := s[p - 1].lo) else e, q)
  {
    var e' := if s[p - 1].lo < e.lo then e.(lo := s[p - 1].lo) else e;
    assert s[p - 1..q] == [s[p - 1]] + s[p..q];
    forall x: int ensures In(x, e') <==> lo <= x <= hi || Covers(s[p - 1..q], x) {
      CoversCons(s[p - 1], s[p..q], x);
      assert In(x, e') <==> In(x, e) || In(x, s[p - 1]);
    }
  }

  lemma TakeSuccessor(s: seq<Range>, lo: U64, hi: U64, p: nat, e: Range, q: nat)
    requires Canonical(s) && Coalesced(s, lo, hi, p, e, q)
    requires q < |s| && s[q].lo <= e.hi + 1
    ensures Coalesced(s, lo, hi, p, if s[q].hi > e.hi then e.(hi := s[q].hi) else e, q + 1)
  {
    var e' := if s[q].hi > e.hi then e.(hi := s[q].hi) else e;
    assert s[p..q + 1] == s[p..q] + ([s[q]] + []);
    forall x: int ensures In(x, e') <==> lo <= x <= hi || Covers(s[p..q + 1], x) {
      CoversConcat(s[p..q], [s[q]] + [], x);
      CoversCons(s[q], [], x);
      assert In(x, e') <==> In(x, e) || In(x, s[q]);
    }
  }

  lemma FinishCanonical(s: seq<Range>, p: nat, e: Range, q: nat, r: seq<Range>)
    requires Canonical(s) && p <= q <= |s| && e.lo <= e.hi
    requires p > 0 ==> s[p - 1].hi + 1 < e.lo
    requires q < |s| ==> e.hi + 1 < s[q].lo
    requires r == s[..p] + [e] + s[q..]
    ensures Canonical(r)
  {
    assert forall i | 0 <= i < p :: r[i] == s[i] && s[i].hi + 1 < e.lo;
    assert r[p] == e;
    assert forall i | p < i < |r| :: r[i] == s[i - p - 1 + q] && e.hi + 1 < r[i].lo;
  }

  lemma {:induction false} FinishInsert(s: seq<Range>, lo: U64, hi: U64, p: nat, e: Range, q: nat, r: seq<Range>)
    requires Canonical(s) && Coalesced(s, lo, hi, p, e, q)
    requires p > 0 ==> s[p - 1].hi + 1 < e.lo
    requires q < |s| ==> e.hi + 1 < s[q].lo
    requires r == s[..p] + [e] + s[q..]
    ensures r == InsertRange(s, lo, hi)
  {
    FinishCanonical(s, p, e, q, r);
    InsertRangeSpec(s, lo, hi);
    forall x: int ensures Covers(r, x) <==> Covers(InsertRange(s, lo, hi), x) {
      FinishCover(s, p, e, q, x);
    }
    CanonicalUnique(r, InsertRange(s, lo, hi));
  }

  lemma FinishCover(s: seq<Range>, p: nat, e: Range, q: nat, x: int)
    requires p <= q <= |s|
    requires Covers(s[p..q], x) ==> In(x, e)
    ensures Covers(s[..p] + [e] + s[q..], x) <==> Covers(s, x) || In(x, e)
  {
    CoversConcat(s[..p] + [e], s[q..], x);
    CoversConcat(s[..p], [e], x);
    assert [e] == [e] + [];
    CoversCons(e, [], x);
    assert s == s[..p] + s[p..q] + s[q..];
    CoversConcat(s[..p] + s[p..q], s[q..], x);
    CoversConcat(s[..p], s[p..q], x);
  }

  /** Replacing entries i..j by one leaves a prefix and a suffix of `s` around it. */
  lemma Replace(t: seq<Range>, i: nat, j: nat, e: Range, s: seq<Range>, p: nat, q: nat)
    requires i <= j <= |t| && p <= |s| && q <= |s|
    requires t[..i] == s[..p] && t[j..] == s[q..]
    ensures (t[..i] + [e] + t[j..])[..i] == s[..p]
    ensures (t[..i] + [e] + t[j..])[i + 1..] == s[q..]
    ensures (t[..i] + [e] + t[j..])[i] == e
  {
  }

  /** The list `t` in the middle of an insertion into `s`. */
  ghost predicate InProgress(t: seq<Range>, s: seq<Range>, lo: U64, hi: U64, e: nat, q: nat)
  {
    && e < |t|
    && Coalesced(s, lo, hi, e, t[e], q)
    && t[..e] == s[..e] && t[e + 1..] == s[q..]
  }

  function TakePrev(t: seq<Range>, e: nat): seq<Range>
    requires 0 < e < |t|
  {
    t[..e - 1] + [if t[e - 1].lo < t[e].lo then t[e].(lo := t[e - 1].lo) else t[e]] + t[e + 1..]
  }

  function TakeNext(t: seq<Range>, e: nat): seq<Range>
    requires e + 1 < |t|
  {
    t[..e] + [if t[e + 1].hi > t[e].hi then t[e].(hi := t[e + 1].hi) else t[e]] + t[e + 2..]
  }

  lemma PrevStep(t: seq<Range>, s: seq<Range>, lo: U64, hi: U64, e: nat, q: nat)
    requires Canonical(s) && InProgress(t, s, lo, hi, e, q) && e > 0 && t[e].lo <= t[e - 1].hi + 1
    ensures InProgress(TakePrev(t, e), s, lo, hi, e - 1, q)
  {
    assert t[..e - 1] == t[..e][..e - 1] == s[..e - 1];
    assert t[e - 1] == t[..e][e - 1] == s[e - 1];
    TakePredecessor(s, lo, hi, e, t[e], q);
    Replace(t, e - 1, e + 1, TakePrev(t, e)[e - 1], s, e - 1, q);
  }

  lemma NextStep(t: seq<Range>, s: seq<Range>, lo: U64, hi: U64, e: nat, q: nat)
    requires Canonical(s) && InProgress(t, s, lo, hi, e, q) && e + 1 < |t| && t[e + 1].lo <= t[e].hi + 1
    ensures InProgress(TakeNext(t, e), s, lo, hi, e, q + 1)
  {
    assert t[e + 2..] == t[e + 1..][1..] == s[q + 1..];
    assert t[e + 1] == t[e + 1..][0] == s[q];
    TakeSuccessor(s, lo, hi, e, t[e], q);
    Replace(t, e, e + 2, TakeNext(t, e)[e], s, e, q + 1);
  }

  lemma {:induction false} PlaceNew(shape: Shape, s: seq<Range>, lo: U64, hi: U64)
    requires InOrder(shape) == s && Canonical(s) && lo <= hi && Clear(s, Range(lo, hi))
    ensures InsertPos(shape, Range(lo, hi)).Some?
    ensures var e := InsertPos(shape, Range(lo, hi)).value;
            e <= |s| && InProgress(s[..e] + [Range(lo, hi)] + s[e..], s, lo, hi, e, e)
  {
    InsertPosSpec(shape, Range(lo, hi));
    var e := InsertPos(shape, Range(lo, hi)).value;
    StartFresh(s, lo, hi, e);
    Replace(s, e, e, Range(lo, hi), s, e, e);
  }

  lemma PlaceGrown(s: seq<Range>, lo: U64, hi: U64, e: nat, grown: Range)
    requires Canonical(s) && lo <= hi && e < |s| && Overlap(Range(lo, hi), s[e])
    requires grown.lo == if s[e].lo > lo then lo else s[e].lo
    requires grown.hi == if s[e].hi < hi then hi else s[e].hi
    ensures InProgress(s[..e] + [grown] + s[e + 1..], s, lo, hi, e, e + 1)
  {
    StartGrown(s, lo, hi, e, grown);
    Replace(s, e, e + 1, grown, s, e, e + 1);
  }

  class RevokedSerials {
    /** The ranges in tree order. */
    var entries: seq<Range>

    constructor ()
      ensures entries == []
    {
      entries := [];
    }

    /** insert_serial_range, for every shape the tree may have. */
    method Insert(shape: Shape, lo: U64, hi: U64)
      requires InOrder(shape) == entries && Canonical(entries)
      requires lo <= hi
      modifies this
      ensures Canonical(entries)
      ensures forall x: int :: Covers(entries, x) <==> Covers(old(entries), x) || lo <= x <= hi
      ensures entries == InsertRange(old(entries), lo, hi)
    {
      ghost var s := entries;
      var e: nat;
      ghost var q: nat;
      e, q := Place(shape, lo, hi);
      e := CoalescePredecessors(s, lo, hi, e, q);
      q := CoalesceSuccessors(s, lo, hi, e, q);
      assert entries == entries[..e] + [entries[e]] + entries[e + 1..];
      FinishInsert(s, lo, hi, e, entries[e], q, entries);
      InsertRangeSpec(s, lo, hi);
    }

    /** The first half of insert_serial_range: add a node, or grow the one that overlaps. */
    method Place(shape: Shape, lo: U64, hi: U64) returns (e: nat, ghost q: nat)
      requires InOrder(shape) == entries && Canonical(entries)
      requires lo <= hi
      modifies this
      ensures InProgress(entries, old(entries), lo, hi, e, q)
    {
      var rs := Range(lo, hi);
      NFindClear(shape, rs);
      var found := NFind(shape, rs);
      if found == None || SerialCmp(entries[found.value], rs) != 0 {
        PlaceNew(shape, entries, lo, hi);
        e := InsertPos(shape, rs).value;
        q := e;
        entries := entries[..e] + [rs] + entries[e..];
      } else {
        e := found.value;
        q := e + 1;
        var grown := entries[e];
        if grown.lo > lo { grown := grown.(lo := lo); }
        if grown.hi < hi { grown := grown.(hi := hi); }
        PlaceGrown(entries, lo, hi, e, grown);
        entries := entries[..e] + [grown] + entries[e + 1..];
      }
    }

    /** Remove the predecessors that overlap or abut. */
    method CoalescePredecessors(ghost s: seq<Range>, ghost lo: U64, ghost hi: U64, e0: nat, ghost q: nat)
      returns (e: nat)
      requires Canonical(s) && InProgress(entries, s, lo, hi, e0, q)
      modifies this
      ensures InProgress(entries, s, lo, hi, e, q)
      ensures e > 0 ==> s[e - 1].hi + 1 < entries[e].lo
    {
      e := e0;
      while e > 0 && !(entries[e].lo != 0 && entries[e - 1].hi < entries[e].lo - 1)
        invariant InProgress(entries, s, lo, hi, e, q)
        decreases e
      {
        PrevStep(entries, s, lo, hi, e, q);
        entries := TakePrev(entries, e);
        e := e - 1;
      }
      assert e > 0 ==> entries[e - 1] == entries[..e][e - 1] == s[e - 1];
    }

    /** Remove the successors that overlap or abut. */
    method CoalesceSuccessors(ghost s: seq<Range>, ghost lo: U64, ghost hi: U64, e: nat, ghost q0: nat)
      returns (ghost q: nat)
      requires Canonical(s) && InProgress(entries, s, lo, hi, e, q0)
      modifies this
      ensures InProgress(entries, s, lo, hi, e, q) && entries[e].lo == old(entries[e].lo)
      ensures q < |s| ==> entries[e].hi + 1 < s[q].lo
    {
      q := q0;
      while e + 1 < |entries| && !(entries[e].hi != 0xFFFF_FFFF_FFFF_FFFF && entries[e + 1].lo > entries[e].hi + 1)
        invariant InProgress(entries, s, lo, hi, e, q) && entries[e].lo == old(entries[e].lo)
        decreases |entries|
      {
        NextStep(entries, s, lo, hi, e, q);
        entries := TakeNext(entries, e);
        q := q + 1;
      }
      assert q < |s| ==> s[q] == entries[e + 1..][0] == entries[e + 1];
    }
  }
}
