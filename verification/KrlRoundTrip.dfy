/** Revoking, writing, reading and checking put together: ssh/krl.c from the ssh_krl_revoke_*
    functions to ssh_krl_check_key on the list that was read. */
module KrlRoundTrip {
  import opened Wire
  import opened SerialTree
  import opened KrlParse
  import opened KrlGenerate
  import opened KrlBlob
  import opened KrlIndex

  /** What the callers of the revocation functions pass: CA keys that can be parsed, C strings and
      SHA1 hashes. */
  ghost predicate GoodOp(op: Op, accepts: Bytes -> bool)
  {
    match op
    case BySerialRange(ca, _, _) => accepts(ca)
    case ByKeyId(ca, id) => accepts(ca) && IsCString(id)
    case Explicit(_) => true
    case BySha1(h) => |h| == 20
  }

  ghost predicate GoodOps(ops: seq<Op>, accepts: Bytes -> bool) { forall i | 0 <= i < |ops| :: GoodOp(ops[i], accepts) }

  /** What every index that good operations lead to satisfies. */
  ghost predicate GoodIndex(idx: Index, accepts: Bytes -> bool)
  {
    && (forall h | h in idx.sha1s :: |h| == 20)
    && (forall ca | ca in idx.certs :: GoodCa(idx.certs[ca], ca, accepts))
  }

  ghost predicate GoodCa(rc: Revoked, ca: Bytes, accepts: Bytes -> bool)
  {
    accepts(ca) && Stored(rc.serials) && rc != NOTHING && forall id | id in rc.keyIds :: IsCString(id)
  }

  lemma {:induction false} RunIsGood(ops: seq<Op>, accepts: Bytes -> bool)
    requires GoodOps(ops, accepts)
    ensures GoodIndex(Run(ops), accepts)
  {
    if ops != [] {
      RunIsGood(ops[..|ops| - 1], accepts);
      ApplyIsGood(Run(ops[..|ops| - 1]), ops[|ops| - 1], accepts);
    }
  }

  lemma ApplyIsGood(idx: Index, op: Op, accepts: Bytes -> bool)
    requires GoodIndex(idx, accepts) && GoodOp(op, accepts)
    ensures GoodIndex(Apply(idx, op), accepts)
  {
    hide IsCString;
    forall ca | ca in Apply(idx, op).certs ensures GoodCa(Apply(idx, op).certs[ca], ca, accepts) {
      if ca in idx.certs { assert GoodCa(idx.certs[ca], ca, accepts); }
      ApplyStored(idx, op, ca);
    }
  }

  // ----- The list in memory

  /** The list holds the index, its trees in tree order and each CA once. */
  ghost predicate Represents(krl: Krl, idx: Index)
  {
    && Elements(krl.keys) == idx.keys && Elements(krl.sha1s) == idx.sha1s && CertMeaning(krl.certs) == idx.certs
    && forall i, j | 0 <= i < j < |krl.certs| :: krl.certs[i].ca != krl.certs[j].ca
  }

  lemma {:induction false} MeaningAt(certs: seq<CertList>, i: nat)
    requires i < |certs| && forall m, n | 0 <= m < n < |certs| :: certs[m].ca != certs[n].ca
    ensures certs[i].ca in CertMeaning(certs)
    ensures CertMeaning(certs)[certs[i].ca] == Revoked(certs[i].serials, Elements(certs[i].keyIds))
  {
    if i < |certs| - 1 {
      var init := certs[..|certs| - 1];
      assert forall m | 0 <= m < |init| :: init[m] == certs[m];
      MeaningAt(init, i);
    }
  }

  /** Whatever was revoked, the list in memory is one that the writer expects. */
  lemma {:induction false} RunIsValid(ops: seq<Op>, krl: Krl, accepts: Bytes -> bool)
    requires GoodOps(ops, accepts) && Represents(krl, Run(ops)) && IsCString(krl.comment)
    ensures Valid(krl, accepts) && AllStored(krl.certs)
  {
    hide IsCString;
    hide CertMeaning;
    hide Stored;
    var idx := Run(ops);
    RunIsGood(ops, accepts);
    forall i | 0 <= i < |krl.certs| ensures ValidCerts(krl.certs[i], accepts) {
      MeaningAt(krl.certs, i);
      OneIsValid(krl.certs[i], idx.certs[krl.certs[i].ca], accepts);
    }
    forall i | 0 <= i < |krl.sha1s| ensures |krl.sha1s[i]| == 20 { assert krl.sha1s[i] in Elements(krl.sha1s); }
  }

  lemma OneIsValid(l: CertList, rc: Revoked, accepts: Bytes -> bool)
    requires GoodCa(rc, l.ca, accepts) && rc == Revoked(l.serials, Elements(l.keyIds))
    ensures ValidCerts(l, accepts)
  {
    hide Stored;
    hide IsCString;
    forall i | 0 <= i < |l.keyIds| ensures IsCString(l.keyIds[i]) { assert l.keyIds[i] in Elements(l.keyIds); }
    if l.keyIds == [] { assert Elements(l.keyIds) == {}; }
  }

  // ----- Reading it back

  function IndexOf(c: Contents): Index { Index(c.keys, c.sha1s, c.certs) }

  /** The list was read, and says of every key what was revoked. */
  ghost predicate Faithful(r: Result<Contents>, ops: seq<Op>)
  {
    r.Ok? && forall key: Key :: Denotes(IndexOf(r.value), key) <==> SomeRevokes(ops, key)
  }

  lemma {:induction false} ReadableIsFaithful(ops: seq<Op>, krl: Krl, accepts: Bytes -> bool)
    requires Represents(krl, Run(ops)) && Valid(krl, accepts) && AllStored(krl.certs) && BlobFits(krl)
    requires Readable(krl.certs, accepts)
    ensures FromBlob(BlobOf(krl), accepts).Ok? && IndexOf(FromBlob(BlobOf(krl), accepts).value) == Run(ops)
    ensures Faithful(FromBlob(BlobOf(krl), accepts), ops)
  {
    hide BlobFits;
    hide FromBlob;
    hide BlobOf;
    hide Readable;
    hide CertMeaning;
    hide Elements;
    BlobRoundTrip(krl, accepts);
    forall key: Key ensures Denotes(Run(ops), key) <==> SomeRevokes(ops, key) { RunDenotes(ops, key); }
  }

  /** A byte string outside a finite set. */
  lemma {:induction false} Fresh(s: set<Bytes>) returns (b: Bytes)
    ensures b !in s && forall x | x in s :: |x| < |b|
  {
    if s == {} {
      b := [0];
    } else {
      var x :| x in s;
      b := Fresh(s - {x});
      if |b| <= |x| { b := x + [0]; }
    }
  }

  /** The first range that was cut off is not covered by the ranges before it. */
  lemma CutOff(s: seq<Range>, k: nat)
    requires Stored(s) && k < |s|
    ensures Covers(s, s[k].lo) && !Covers(s[..k], s[k].lo)
  {
    assert In(s[k].lo, s[k]);
  }

  /** Every certificate of this CA with this serial was revoked, and the list that was read reports
      it only if its very key or hash is also on the list. */
  ghost predicate Misses(ops: seq<Op>, got: Index, ca: Bytes, serial: U64)
  {
    forall key: Key :: Under(key, ca) && key.cert.value.serial == serial && !key.cert.value.legacy ==>
      SomeRevokes(ops, key) && (Denotes(got, key) <==> key.sha1 in got.sha1s || key.blob in got.keys)
  }

  lemma MissedIsUnfaithful(ops: seq<Op>, got: Index, ca: Bytes, serial: U64)
    requires Misses(ops, got, ca, serial)
    ensures exists key: Key :: SomeRevokes(ops, key) && !Denotes(got, key)
  {
    var blob := Fresh(got.keys);
    var sha1 := Fresh(got.sha1s);
    var key := Key(blob, sha1, Some(Cert(Key(ca, [], None), [], serial, false)));
    assert SomeRevokes(ops, key);
  }

  /** A list that was cut short misses the certificates with the first serial that was cut off. */
  lemma CutMisses(ops: seq<Op>, krl: Krl, got: Index) returns (serial: U64)
    requires Represents(krl, Run(ops)) && |krl.certs| == 1 && Stored(krl.certs[0].serials)
    requires Cut(krl.certs[0], got.certs)
    ensures serial > 0 && Misses(ops, got, krl.certs[0].ca, serial)
  {
    hide CertMeaning;
    hide Elements;
    hide SomeRevokes;
    var l := krl.certs[0];
    MeaningAt(krl.certs, 0);
    var rc :| CutShort(l.serials, rc) && got.certs == Update(map[], l.ca, rc);
    var k: nat :| k < |l.serials| && rc == Revoked(l.serials[..k], {});
    CutOff(l.serials, k);
    serial := l.serials[k].lo;
    forall key: Key | Under(key, l.ca) && key.cert.value.serial == serial && !key.cert.value.legacy
      ensures SomeRevokes(ops, key) && (Denotes(got, key) <==> key.sha1 in got.sha1s || key.blob in got.keys)
    {
      RunDenotes(ops, key);
    }
  }

  /** Revoking, writing and reading: the list that is read says the same of every key exactly
      when the certificates are under at most one CA and its serials are representable.
      Otherwise it cannot be read, or misses all certificates with some serial that was revoked. */
  lemma {:induction false} RoundTrip(ops: seq<Op>, krl: Krl, accepts: Bytes -> bool)
    requires GoodOps(ops, accepts) && Represents(krl, Run(ops)) && IsCString(krl.comment)
    requires AllStored(krl.certs) && BlobFits(krl)
    ensures AllValid(krl.certs, accepts)
    ensures Faithful(FromBlob(BlobOf(krl), accepts), ops) <==> Readable(krl.certs, accepts)
    ensures !Readable(krl.certs, accepts) ==>
              var r := FromBlob(BlobOf(krl), accepts);
              r.Err? || (|krl.certs| == 1
                         && exists x: U64 :: x > 0 && Misses(ops, IndexOf(r.value), krl.certs[0].ca, x))
  {
    hide BlobFits;
    hide FromBlob;
    hide BlobOf;
    hide Readable;
    hide Represents;
    hide GoodOps;
    hide Cut;
    hide Misses;
    RunIsValid(ops, krl, accepts);
    if Readable(krl.certs, accepts) {
      ReadableIsFaithful(ops, krl, accepts);
    } else if FromBlob(BlobOf(krl), accepts).Ok? {
      var serial := NotReadable(ops, krl, accepts);
      MissedIsUnfaithful(ops, IndexOf(FromBlob(BlobOf(krl), accepts).value), krl.certs[0].ca, serial);
    }
  }

  lemma NotReadable(ops: seq<Op>, krl: Krl, accepts: Bytes -> bool) returns (serial: U64)
    requires Represents(krl, Run(ops)) && Valid(krl, accepts) && AllStored(krl.certs) && BlobFits(krl)
    requires !Readable(krl.certs, accepts) && FromBlob(BlobOf(krl), accepts).Ok?
    ensures |krl.certs| == 1 && serial > 0
    ensures Misses(ops, IndexOf(FromBlob(BlobOf(krl), accepts).value), krl.certs[0].ca, serial)
  {
    hide BlobFits;
    hide FromBlob;
    hide BlobOf;
    hide CertMeaning;
    hide Elements;
    hide Cut;
    hide Misses;
    BlobRoundTrip(krl, accepts);
    assert ValidCerts(krl.certs[0], accepts);
    serial := CutMisses(ops, krl, IndexOf(FromBlob(BlobOf(krl), accepts).value));
  }

  // ----- The loss without an error

  /** The revocations of `n` pairs of serials. */
  function PairOps(ca: Bytes, n: nat): seq<Op>
    requires n <= MAX_PAIRS
  {
    seq(n, i requires 0 <= i < n => BySerialRange(ca, 1 + 63 * i, 2 + 63 * i))
  }

  lemma StoredIsCanonical(s: seq<Range>)
    requires Stored(s)
    ensures Canonical(s)
  {
  }

  lemma {:induction false} PairsAreRevoked(ca: Bytes, n: nat)
    requires 0 < n <= MAX_PAIRS
    ensures Run(PairOps(ca, n)) == Index({}, {}, map[ca := Revoked(Pairs(n), {})])
    decreases n
  {
    hide InsertRange;
    hide Canonical;
    hide Stored;
    var ops, s := PairOps(ca, n), Pairs(n);
    var op := ops[n - 1];
    assert ops[..n - 1] == PairOps(ca, n - 1) && s[..n - 1] == Pairs(n - 1) && s[..n] == s;
    assert op == BySerialRange(ca, s[n - 1].lo, s[n - 1].hi);
    PairsAreStored(n);
    StoredIsCanonical(s);
    AppendRange(s, n - 1);
    if n == 1 {
      assert Run([]) == Index({}, {}, map[]) && Pairs(0) == [];
    } else {
      PairsAreRevoked(ca, n - 1);
    }
  }

  /** Pairs beyond the reach of one bitmap: all of them are revoked, the list is written and read
      without an error, and what is read revokes nothing. */
  lemma SilentLoss(ca: Bytes, n: nat, accepts: Bytes -> bool)
    requires accepts(ca) && |ca| <= 0x10_0000 && LAST_PAIR + 1 < n <= MAX_PAIRS
    ensures var (ops, krl) := (PairOps(ca, n), Plain(OneList(ca, Pairs(n))));
            && GoodOps(ops, accepts) && Represents(krl, Run(ops)) && AllStored(krl.certs) && BlobFits(krl)
            && FromBlob(BlobOf(krl), accepts).Ok?
            && forall key: Key :: !Denotes(IndexOf(FromBlob(BlobOf(krl), accepts).value), key)
  {
    hide Pairs;
    hide BlobFits;
    hide FromBlob;
    hide BlobOf;
    hide SerialsFit;
    hide Stored;
    hide Run;
    hide Stop;
    hide SerialSections;
    PairsFate(n);
    PairsLength(n);
    PairsAreRevoked(ca, n);
    UnwrittenAreLost(ca, accepts, Pairs(n));
    OneListMeans(ca, Pairs(n));
    assert Elements([]) == {};
  }

  lemma PairsLength(n: nat)
    requires n <= MAX_PAIRS
    ensures |Pairs(n)| == n
  {
  }

  lemma OneListMeans(ca: Bytes, s: seq<Range>)
    ensures CertMeaning(OneList(ca, s)) == map[ca := Revoked(s, {})] && CertMeaning([]) == map[]
  {
    var l := OneList(ca, s);
    assert l[..0] == [] && Elements([]) == {};
  }

  /** After the round trip ssh_krl_check_key answers as it did in memory, in trees of any shape. */
  lemma {:induction false} ChecksAgree(ops: seq<Op>, krl: Krl, accepts: Bytes -> bool, key: Key, t: Trees,
                                       caTrees: Trees)
    requires GoodOps(ops, accepts) && Represents(krl, Run(ops)) && IsCString(krl.comment)
    requires AllStored(krl.certs) && BlobFits(krl) && AllValid(krl.certs, accepts) && Readable(krl.certs, accepts)
    ensures FromBlob(BlobOf(krl), accepts).Ok?
    ensures var idx := IndexOf(FromBlob(BlobOf(krl), accepts).value);
            Holds(idx, key, t) && (key.cert.Some? ==> Holds(idx, key.cert.value.ca, caTrees)) ==>
              (CheckKey(idx, key, t, caTrees)
               <==> SomeRevokes(ops, key) || (key.cert.Some? && SomeRevokes(ops, key.cert.value.ca)))
  {
    hide BlobFits;
    hide FromBlob;
    hide BlobOf;
    hide Readable;
    hide Represents;
    hide GoodOps;
    hide CheckKey;
    RunIsValid(ops, krl, accepts);
    ReadableIsFaithful(ops, krl, accepts);
    var idx := Run(ops);
    if Holds(idx, key, t) && (key.cert.Some? ==> Holds(idx, key.cert.value.ca, caTrees)) {
      CheckKeyCorrect(ops, key, t, caTrees);
    }
  }
}
