/** The numbers of RSA and DSA keys in sshkey_from_blob of ssh/key.c: a get that fails is not
    noticed, so a blob may hold fewer numbers than the key has. */
module CertNumbers {
  import opened Wire
  import opened WireStrings
  import opened Cert

  /** `b` holds the numbers `ns` and then `rest`. */
  ghost predicate Numbers(b: Bytes, ns: seq<nat>, rest: Bytes)
    decreases |ns|
  {
    if ns == [] then b == rest
    else GetBignum(b).Ok? && GetBignum(b).value.value == ns[0] && Numbers(GetBignum(b).value.rest, ns[1..], rest)
  }

  /** As many numbers as there are, but at most `k`. */
  ghost predicate Split(b: Bytes, k: nat, ns: seq<nat>, rest: Bytes)
  {
    |ns| <= k && Numbers(b, ns, rest) && (|ns| == k || GetBignum(rest).Err?)
  }

  /** The numbers that are missing read as zero. */
  function Pad(ns: seq<nat>, k: nat): seq<nat>
    requires |ns| <= k
  {
    ns + seq(k - |ns|, _ => 0)
  }

  /** `k` numbers as sshkey_from_blob reads them. */
  function LenientAll(b: Bytes, k: nat): Read<seq<nat>>
    decreases k
  {
    if k == 0 then Read([], b)
    else
      var v := Lenient(b);
      var vs := LenientAll(v.rest, k - 1);
      Read([v.value] + vs.value, vs.rest)
  }

  lemma {:induction false} SplitIsUnique(b: Bytes, k: nat, ns: seq<nat>, rest: Bytes, ns': seq<nat>, rest': Bytes)
    requires Split(b, k, ns, rest) && Split(b, k, ns', rest')
    ensures ns == ns' && rest == rest'
    decreases k
  {
    hide GetBignum;
    if ns != [] && ns' != [] {
      SplitIsUnique(GetBignum(b).value.rest, k - 1, ns[1..], rest, ns'[1..], rest');
      assert ns == [ns[0]] + ns[1..] && ns' == [ns'[0]] + ns'[1..];
    }
  }

  lemma {:induction false} NoNumber(b: Bytes, k: nat)
    requires GetBignum(b).Err?
    ensures LenientAll(b, k) == Read(Pad([], k), b)
    decreases k
  {
    hide GetBignum;
    if k == 0 {
      assert Pad([], 0) == [];
    } else {
      NoNumber(b, k - 1);
      assert Pad([], k) == [0] + Pad([], k - 1);
    }
  }

  /** Every run of bytes splits into the numbers at its start and the rest, and that is how it is
      read. */
  lemma {:induction false} SplitIsRead(b: Bytes, k: nat) returns (ns: seq<nat>, rest: Bytes)
    ensures Split(b, k, ns, rest) && LenientAll(b, k) == Read(Pad(ns, k), rest)
    decreases k
  {
    hide GetBignum;
    if k == 0 {
      ns, rest := [], b;
      assert Pad([], 0) == [];
    } else if GetBignum(b).Err? {
      ns, rest := [], b;
      NoNumber(b, k);
    } else {
      var v := GetBignum(b).value;
      var more, left := SplitIsRead(v.rest, k - 1);
      ns, rest := [v.value] + more, left;
      assert ns[1..] == more;
      assert Pad(ns, k) == [v.value] + Pad(more, k - 1);
    }
  }

  // ----- Keys by their numbers

  function Count(pub: Pub): nat
    requires !pub.Ecdsa?
  {
    if pub.Rsa? then 2 else 4
  }

  function Values(pub: Pub): (vs: seq<nat>)
    requires !pub.Ecdsa?
    ensures |vs| == Count(pub)
  {
    match pub
    case Rsa(e, n) => [e, n]
    case Dsa(p, q, g, y) => [p, q, g, y]
  }

  /** The key of the same kind with other numbers. */
  function WithValues(pub: Pub, vs: seq<nat>): (r: Pub)
    requires !pub.Ecdsa? && |vs| == Count(pub)
    ensures !r.Ecdsa? && Values(r) == vs && (r.Rsa? <==> pub.Rsa?)
  {
    if pub.Rsa? then Rsa(vs[0], vs[1]) else Dsa(vs[0], vs[1], vs[2], vs[3])
  }

  lemma SameKindSameValues(a: Pub, b: Pub)
    requires !a.Ecdsa? && !b.Ecdsa? && (a.Rsa? <==> b.Rsa?)
    ensures a == b <==> Values(a) == Values(b)
  {
    match a
    case Rsa(e, n) => assert Values(a)[0] == e && Values(a)[1] == n && Values(b)[0] == b.e && Values(b)[1] == b.n;
    case Dsa(p, q, g, y) =>
      assert Values(a)[0] == p && Values(a)[1] == q && Values(a)[2] == g && Values(a)[3] == y;
      assert Values(b)[0] == b.p && Values(b)[1] == b.q && Values(b)[2] == b.g && Values(b)[3] == b.y;
  }

  lemma {:induction false} ReadRsaIsLenient(b: Bytes)
    ensures var r := LenientAll(b, 2); |r.value| == 2 && ReadRsa(b) == Read(Rsa(r.value[0], r.value[1]), r.rest)
  {
    hide Lenient;
    var r1 := Lenient(b).rest;
    var one := LenientAll(r1, 1);
    assert one == Read([Lenient(r1).value] + LenientAll(Lenient(r1).rest, 0).value, Lenient(r1).rest);
    assert LenientAll(b, 2) == Read([Lenient(b).value] + one.value, one.rest);
  }

  lemma {:induction false} ReadDsaIsLenient(b: Bytes)
    ensures var r := LenientAll(b, 4);
            |r.value| == 4 && ReadDsa(b) == Read(Dsa(r.value[0], r.value[1], r.value[2], r.value[3]), r.rest)
  {
    hide Lenient;
    var p := Lenient(b);
    var q := Lenient(p.rest);
    var two := LenientAll(q.rest, 2);
    ReadRsaIsLenient(q.rest);
    var three := LenientAll(p.rest, 3);
    assert three == Read([q.value] + two.value, two.rest);
    assert LenientAll(b, 4) == Read([p.value] + three.value, three.rest);
  }

  /** The numbers of a key, however many there are. */
  lemma PubIsRead(cr: Crypto, pub: Pub, form: Form, b: Bytes, ns: seq<nat>, rest: Bytes)
    requires !pub.Ecdsa? && Split(b, Count(pub), ns, rest)
    ensures ReadPub(cr, TypeOf(pub, form), b) == Ok(Read(WithValues(pub, Pad(ns, Count(pub))), rest))
  {
    hide ReadRsa;
    hide ReadDsa;
    hide LenientAll;
    hide Split;
    hide Pad;
    var ns', rest' := SplitIsRead(b, Count(pub));
    SplitIsUnique(b, Count(pub), ns, rest, ns', rest');
    if pub.Rsa? { ReadRsaIsLenient(b); } else { ReadDsaIsLenient(b); }
  }

  // ----- Plain keys

  /** After its name, the blob of a plain key. */
  lemma {:induction false} PlainIsRead(cr: Crypto, pub: Pub, b: Bytes, ns: seq<nat>, rest: Bytes)
    requires !pub.Ecdsa? && Split(b, Count(pub), ns, rest)
    ensures FromBlob(cr, NameBytes(pub, Plain) + b)
            == if rest == [] then Ok(Key(WithValues(pub, Pad(ns, Count(pub))), Plain, None)) else Err(InvalidFormat)
  {
    hide GetCString;
    hide TypeName;
    hide TypeFromName;
    hide NameBytes;
    hide ReadPub;
    hide Split;
    hide Pad;
    NameIsRead(pub, Plain, b);
    PubIsRead(cr, pub, Plain, b, ns, rest);
  }

  /** After the name of an RSA or DSA key, a blob is accepted exactly when it consists of at most
      as many numbers as the key has; it is read as those numbers, and zero for every other. */
  lemma {:induction false} PlainNumbers(cr: Crypto, pub: Pub, b: Bytes)
    requires !pub.Ecdsa?
    ensures FromBlob(cr, NameBytes(pub, Plain) + b).Ok? <==> exists ns :: |ns| <= Count(pub) && Numbers(b, ns, [])
    ensures forall ns | |ns| <= Count(pub) && Numbers(b, ns, []) ::
              FromBlob(cr, NameBytes(pub, Plain) + b) == Ok(Key(WithValues(pub, Pad(ns, Count(pub))), Plain, None))
  {
    hide NameBytes;
    hide FromBlob;
    hide Pad;
    hide Numbers;
    hide LenientAll;
    var ns, rest := SplitIsRead(b, Count(pub));
    PlainIsRead(cr, pub, b, ns, rest);
    NothingIsNoNumber();
    forall ms | |ms| <= Count(pub) && Numbers(b, ms, [])
      ensures ms == ns && rest == []
    {
      SplitIsUnique(b, Count(pub), ns, rest, ms, []);
    }
  }

  lemma NothingIsNoNumber()
    ensures GetBignum([]).Err?
  {
  }

  predicate AllPutable(vs: seq<nat>) { forall i | 0 <= i < |vs| :: CanPutBignum(vs[i]) }

  predicate AllTransmissible(vs: seq<nat>) { forall i | 0 <= i < |vs| :: Transmissible(vs[i]) }

  /** The numbers as they are written. */
  function NumbersBytes(vs: seq<nat>): Bytes
    requires AllPutable(vs)
  {
    if vs == [] then [] else BignumBytes(vs[0]) + NumbersBytes(vs[1..])
  }

  lemma {:induction false} NumbersRoundTrip(vs: seq<nat>, rest: Bytes)
    requires AllTransmissible(vs)
    ensures Numbers(NumbersBytes(vs) + rest, vs, rest)
    decreases |vs|
  {
    hide GetBignum;
    hide BignumBytes;
    hide NumBits;
    if vs == [] {
      assert [] + rest == rest;
    } else {
      NumbersRoundTrip(vs[1..], rest);
      BignumRoundTrip(vs[0], NumbersBytes(vs[1..]) + rest);
      assert NumbersBytes(vs) + rest == BignumBytes(vs[0]) + (NumbersBytes(vs[1..]) + rest);
    }
  }

  /** The blob of a key, of whose numbers only the first `j` were written, is read as the key
      exactly when the others are zero. */
  lemma {:induction false} TruncatedBlob(cr: Crypto, pub: Pub, j: nat)
    requires !pub.Ecdsa? && j <= Count(pub) && AllTransmissible(Values(pub)[..j])
    ensures FromBlob(cr, NameBytes(pub, Plain) + NumbersBytes(Values(pub)[..j])).Ok?
    ensures FromBlob(cr, NameBytes(pub, Plain) + NumbersBytes(Values(pub)[..j])) == Ok(Key(pub, Plain, None))
            <==> forall i | j <= i < Count(pub) :: Values(pub)[i] == 0
  {
    hide NameBytes;
    hide FromBlob;
    hide Numbers;
    hide NumbersBytes;
    hide CanPutBignum;
    hide NumBits;
    hide Values;
    var vs := Values(pub)[..j];
    NumbersRoundTrip(vs, []);
    assert NumbersBytes(vs) + [] == NumbersBytes(vs);
    PlainNumbers(cr, pub, NumbersBytes(vs));
    var read := Pad(vs, Count(pub));
    SameKindSameValues(pub, WithValues(pub, read));
    assert Values(pub) == read <==> forall i | j <= i < Count(pub) :: Values(pub)[i] == 0 by {
      assert forall i | 0 <= i < Count(pub) :: read[i] == if i < j then Values(pub)[i] else 0;
    }
  }

  /** A number of exactly 8192 bits is written but cannot be read. */
  lemma {:induction false} LargeNumberStays(vs: seq<nat>) returns (ns: seq<nat>, rest: Bytes)
    requires AllPutable(vs) && !AllTransmissible(vs)
    ensures Split(NumbersBytes(vs), |vs|, ns, rest) && rest != []
    decreases |vs|
  {
    hide GetBignum;
    hide BignumBytes;
    hide NumBits;
    var more := NumbersBytes(vs[1..]);
    BignumRoundTrip(vs[0], more);
    if Transmissible(vs[0]) {
      ns, rest := LargeNumberStays(vs[1..]);
      ns := [vs[0]] + ns;
    } else {
      ns, rest := [], NumbersBytes(vs);
      BignumIsNotEmpty(vs[0], more);
    }
  }

  lemma BignumIsNotEmpty(v: nat, rest: Bytes)
    requires CanPutBignum(v)
    ensures BignumBytes(v) + rest != []
  {
  }

  lemma PubIsNumbers(pub: Pub)
    requires !pub.Ecdsa? && Putable(pub)
    ensures AllPutable(Values(pub)) && PubBytes(pub) == NumbersBytes(Values(pub))
  {
    hide BignumBytes;
    hide CanPutBignum;
    match pub
    case Rsa(e, n) => PairBytes(e, n);
    case Dsa(p, q, g, y) =>
      PairBytes(g, y);
      assert [q, g, y][1..] == [g, y] && [p, q, g, y][1..] == [q, g, y];
  }

  lemma PairBytes(a: nat, b: nat)
    requires CanPutBignum(a) && CanPutBignum(b)
    ensures NumbersBytes([a, b]) == BignumBytes(a) + BignumBytes(b)
  {
    hide BignumBytes;
    hide CanPutBignum;
    assert [a, b][1..] == [b] && [b][1..] == [];
    assert NumbersBytes([b]) == BignumBytes(b) by {
      assert NumbersBytes([b]) == BignumBytes(b) + [];
    }
  }

  /** The blob that sshkey_to_blob writes for a plain key is read back exactly when none of its
      numbers has exactly 8192 bits and its point is on the curve; otherwise it is refused. */
  lemma {:induction false} PlainReadBack(cr: Crypto, pub: Pub)
    requires Putable(pub)
    ensures var r := FromBlob(cr, PlainBlob(pub)); if Readable(cr, pub) then r == Ok(Key(pub, Plain, None)) else r.Err?
  {
    hide NameBytes;
    hide FromBlob;
    hide NumbersBytes;
    hide PubBytes;
    hide Split;
    hide Pad;
    hide CanPutBignum;
    hide NumBits;
    if Readable(cr, pub) {
      PlainRoundTrip(cr, pub);
    } else if pub.Ecdsa? {
      BadPoint(cr, pub);
    } else {
      PubIsNumbers(pub);
      if AllTransmissible(Values(pub)) { SmallValues(cr, pub); assert false; }
      var ns, rest := LargeNumberStays(Values(pub));
      PlainIsRead(cr, pub, NumbersBytes(Values(pub)), ns, rest);
    }
  }

  lemma SmallValues(cr: Crypto, pub: Pub)
    requires !pub.Ecdsa? && AllTransmissible(Values(pub))
    ensures Readable(cr, pub)
  {
    hide Transmissible;
    var vs := Values(pub);
    assert Transmissible(vs[0]) && Transmissible(vs[1]);
    if pub.Dsa? { assert Transmissible(vs[2]) && Transmissible(vs[3]); }
  }

  lemma {:induction false} BadPoint(cr: Crypto, pub: Pub)
    requires pub.Ecdsa? && Putable(pub) && !cr.pointOk(pub.curve, pub.point)
    ensures FromBlob(cr, PlainBlob(pub)).Err?
  {
    hide GetCString;
    hide TypeName;
    hide TypeFromName;
    hide NameBytes;
    hide ReadEcdsa;
    hide StringBytes;
    NameIsRead(pub, Plain, PubBytes(pub));
    EcdsaRoundTrip(cr, pub.curve, pub.point, []);
    assert StringBytes(pub.point) + [] == StringBytes(pub.point);
  }

  // ----- Certificates

  /** In a certificate the fields are read from where the numbers end.  The blob is accepted
      exactly when at most as many numbers as the key has are followed by the rest of a
      certificate, and when there are fewer, that rest does not start with a number. */
  lemma {:induction false} CertNumbers(cr: Crypto, pub: Pub, form: Form, nonce: Nonce, b: Bytes, key: Pub,
                                       cert: Certificate)
    requires !pub.Ecdsa? && !form.Plain?
    ensures var blob := NameBytes(pub, form) + (NonceBytes(form, nonce) + b);
            FromBlob(cr, blob) == Ok(Key(key, form, Some(cert)))
            <==> exists ns, rest :: Split(b, Count(pub), ns, rest) && |rest| < |blob|
                   && key == WithValues(pub, Pad(ns, Count(pub)))
                                    && CertParse(cr, form.V00?, rest, blob) == Ok(Read(cert, []))
  {
    hide NameBytes;
    hide FromBlob;
    hide CertParse;
    hide Split;
    hide Pad;
    hide LenientAll;
    hide StringBytes;
    var blob := NameBytes(pub, form) + (NonceBytes(form, nonce) + b);
    var ns, rest := SplitIsRead(b, Count(pub));
    CertIsRead(cr, pub, form, nonce, b, ns, rest);
    forall ns', rest' | Split(b, Count(pub), ns', rest') ensures ns' == ns && rest' == rest {
      SplitIsUnique(b, Count(pub), ns, rest, ns', rest');
    }
  }

  lemma {:induction false} CertIsRead(cr: Crypto, pub: Pub, form: Form, nonce: Nonce, b: Bytes, ns: seq<nat>,
                                      rest: Bytes)
    requires !pub.Ecdsa? && !form.Plain? && Split(b, Count(pub), ns, rest)
    ensures var blob := NameBytes(pub, form) + (NonceBytes(form, nonce) + b);
            && |rest| < |blob|
            && FromBlob(cr, blob)
               == match CertParse(cr, form.V00?, rest, blob)
                  case Err(e) => Err(e)
                  case Ok(r) => if r.rest == [] then Ok(Key(WithValues(pub, Pad(ns, Count(pub))), form, Some(r.value)))
                                else Err(InvalidFormat)
  {
    hide GetCString;
    hide GetString;
    hide StringBytes;
    hide TypeName;
    hide TypeFromName;
    hide NameBytes;
    hide ReadPub;
    hide CertParse;
    hide Split;
    hide Pad;
    NameIsRead(pub, form, NonceBytes(form, nonce) + b);
    StringRoundTrip(nonce, b);
    assert [] + b == b;
    PubIsRead(cr, pub, form, b, ns, rest);
  }

  /** What is signed when only the numbers `ns` are written. */
  function ShortSigned(pub: Pub, form: Form, f: Fields, nonce: Nonce, ns: seq<nat>): Bytes
    requires !pub.Ecdsa? && AllTransmissible(ns) && FieldsFit(f)
  {
    NameBytes(pub, form) + (NonceBytes(form, nonce) + (NumbersBytes(ns)
    + (HeadBytes(form.V00?, f) + TailBytes(form.V00?, f, nonce))))
  }

  /** What comes after the numbers. */
  function AfterNumbers(form: Form, f: Fields, nonce: Nonce, sig: Bytes): Bytes
    requires FieldsFit(f) && StringFits(sig)
  {
    HeadBytes(form.V00?, f) + (TailBytes(form.V00?, f, nonce) + StringBytes(sig))
  }

  lemma {:induction false} ShortBlob(pub: Pub, form: Form, f: Fields, nonce: Nonce, ns: seq<nat>, sig: Bytes)
    requires !pub.Ecdsa? && AllTransmissible(ns) && FieldsFit(f) && StringFits(sig)
    ensures CertBlob(ShortSigned(pub, form, f, nonce, ns), sig)
            == NameBytes(pub, form) + (NonceBytes(form, nonce) + (NumbersBytes(ns) + AfterNumbers(form, f, nonce, sig)))
  {
    hide NameBytes;
    hide NumbersBytes;
    hide HeadBytes;
    hide TailBytes;
    hide StringBytes;
    hide FieldsFit;
    Nested(NameBytes(pub, form), NonceBytes(form, nonce), NumbersBytes(ns), HeadBytes(form.V00?, f),
           TailBytes(form.V00?, f, nonce), StringBytes(sig));
  }

  /** So a certificate that was signed over fewer numbers than the key has is accepted, for the
      key with zeros, when its fields do not start with a number. */
  lemma {:induction false} ShortCert(cr: Crypto, pub: Pub, form: Form, info: Info, nonce: Nonce, ca: Pub, ns: seq<nat>,
                                     sig: Bytes)
    requires !pub.Ecdsa? && !form.Plain? && |ns| <= Count(pub) && AllTransmissible(ns)
    requires GoodInfo(info) && Readable(cr, ca) && Putable(ca) && FieldsFit(Pack(info, PlainBlob(ca)))
             && StringFits(sig)
    requires |ns| == Count(pub) || GetBignum(AfterNumbers(form, Pack(info, PlainBlob(ca)), nonce, sig)).Err?
    ensures var tbs := ShortSigned(pub, form, Pack(info, PlainBlob(ca)), nonce, ns);
            FromBlob(cr, CertBlob(tbs, sig))
            == Ok(Key(WithValues(pub, Pad(ns, Count(pub))), form, Some(Certificate(Kept(info, form), ca))))
            <==> Acceptable(Kept(info, form)) && Verify(cr, ca, sig, tbs).Ok?
  {
    hide NameBytes;
    hide FromBlob;
    hide CertParse;
    hide CertBlob;
    hide Pad;
    hide Numbers;
    hide NumbersBytes;
    hide ShortSigned;
    hide HeadBytes;
    hide TailBytes;
    hide StringBytes;
    hide PlainBlob;
    hide Acceptable;
    hide GoodInfo;
    hide Readable;
    hide Putable;
    hide GetBignum;
    hide Verify;
    hide CanPutBignum;
    hide NumBits;
    GoodPrincipals(info);
    var f := Pack(info, PlainBlob(ca));
    var rest := AfterNumbers(form, f, nonce, sig);
    ShortBlob(pub, form, f, nonce, ns, sig);
    NumbersRoundTrip(ns, rest);
    CertIsRead(cr, pub, form, nonce, NumbersBytes(ns) + rest, ns, rest);
    CertParsed(cr, form, info, nonce, ca, rest, ShortSigned(pub, form, f, nonce, ns), sig);
  }

  // ----- When the fields do not start with a number

  /** The first word of the bytes is taken for the length of a number. */
  lemma BignumByLength(h: U32, b: Bytes)
    ensures GetBignum(U32Bytes(h) + b).Err? <==> h > |b| || h > SSHBUF_MAX_BIGNUM || (h > 0 && b[0] >= 128)
  {
    hide U32Bytes;
    hide GetU32;
    hide FromBigEndian;
    U32RoundTrip(h, b);
    if 0 < h <= |b| { assert b[..h][0] == b[0]; }
  }

  /** What the serial has to be: its high half is the length, and its next bit the sign. */
  predicate EndsNumbers(serial: U64, len: nat)
  {
    var h := serial / U32_LIMIT;
    h + 4 > len || h > SSHBUF_MAX_BIGNUM || (h > 0 && serial / 0x100_0000 % 256 >= 128)
  }

  /** In version 01 the serial comes first, and decides. */
  lemma SerialEndsNumbers(f: Fields, nonce: Nonce, sig: Bytes)
    requires FieldsFit(f) && StringFits(sig)
    ensures var rest := AfterNumbers(V01, f, nonce, sig);
            GetBignum(rest).Err? <==> EndsNumbers(f.serial, |rest|)
  {
    hide StringBytes;
    hide U64Bytes;
    hide U32Bytes;
    hide GetBignum;
    hide TailBytes;
    hide FieldsFit;
    var rest := AfterNumbers(V01, f, nonce, sig);
    U64Halves(f.serial);
    assert rest[..8] == U64Bytes(f.serial);
    assert rest[..4] == U64Bytes(f.serial)[..4] && rest[4] == U64Bytes(f.serial)[4];
    assert rest == U32Bytes(f.serial / U32_LIMIT) + rest[4..];
    BignumByLength(f.serial / U32_LIMIT, rest[4..]);
  }

  /** In version 00 the type comes first; a certificate for users or hosts always goes on with
      what reads as a number, and its fields are read from after that. */
  lemma KindIsNumber(f: Fields, nonce: Nonce, sig: Bytes)
    requires FieldsFit(f) && StringFits(sig) && |f.keyId| < 0x8000_0000 && (f.kind == USER_CERT || f.kind == HOST_CERT)
    ensures GetBignum(AfterNumbers(V00, f, nonce, sig)).Ok?
  {
    hide U32Bytes;
    hide GetBignum;
    hide TailBytes;
    hide FieldsFit;
    var rest := AfterNumbers(V00, f, nonce, sig);
    U32Top(f.kind);
    U32Top(|f.keyId|);
    var b := rest[4..];
    assert rest == U32Bytes(f.kind) + b by { assert rest[..4] == U32Bytes(f.kind); }
    assert b[0] == U32Bytes(|f.keyId|)[0];
    BignumByLength(f.kind, b);
  }

  /** So it is the serial that decides whether a version 01 certificate over fewer numbers can be
      accepted for the key with zeros. */
  lemma {:induction false} ShortCertBySerial(cr: Crypto, pub: Pub, info: Info, nonce: Nonce, ca: Pub, ns: seq<nat>,
                                             sig: Bytes)
    requires !pub.Ecdsa? && |ns| <= Count(pub) && AllTransmissible(ns)
    requires GoodInfo(info) && Readable(cr, ca) && Putable(ca) && FieldsFit(Pack(info, PlainBlob(ca)))
             && StringFits(sig)
    requires EndsNumbers(info.serial, |AfterNumbers(V01, Pack(info, PlainBlob(ca)), nonce, sig)|)
    ensures var tbs := ShortSigned(pub, V01, Pack(info, PlainBlob(ca)), nonce, ns);
            FromBlob(cr, CertBlob(tbs, sig))
              == Ok(Key(WithValues(pub, Pad(ns, Count(pub))), V01, Some(Certificate(info, ca))))
            <==> Acceptable(info) && Verify(cr, ca, sig, tbs).Ok?
  {
    hide FromBlob;
    hide GetBignum;
    hide AfterNumbers;
    hide ShortSigned;
    hide PlainBlob;
    hide Acceptable;
    hide GoodInfo;
    hide Readable;
    hide Putable;
    hide FieldsFit;
    hide AllTransmissible;
    hide Verify;
    hide Pad;
    hide EndsNumbers;
    GoodPrincipals(info);
    SerialEndsNumbers(Pack(info, PlainBlob(ca)), nonce, sig);
    ShortCert(cr, pub, V01, info, nonce, ca, ns, sig);
  }

  /** One such: a host certificate for an RSA key, signed without any number. */
  function Statement(): Info { Info(0xFFFF_FFFF_0000_0000, HOST_CERT, [], [], 0, 0, [], []) }

  lemma StatementIsGood()
    ensures GoodInfo(Statement()) && Acceptable(Statement()) && NamesBytes(Statement().principals) == []
  {
  }

  lemma {:induction false} ShortCertExists(cr: Crypto, ca: Pub, nonce: Nonce)
    requires Correct(cr) && Readable(cr, ca) && Putable(ca) && |PlainBlob(ca)| <= 100_000
    requires forall data :: |cr.sign(ca, data)| <= 100_000
    ensures var f := Pack(Statement(), PlainBlob(ca));
            && FieldsFit(f)
            && var tbs := ShortSigned(Rsa(0, 0), V01, f, nonce, []);
               FromBlob(cr, CertBlob(tbs, cr.sign(ca, tbs)))
                 == Ok(Key(Rsa(0, 0), V01, Some(Certificate(Statement(), ca))))
  {
    hide FromBlob;
    hide PlainBlob;
    hide Acceptable;
    hide GoodInfo;
    hide Readable;
    hide Putable;
    hide NamesBytes;
    hide AfterNumbers;
    hide ShortSigned;
    hide Correct;
    StatementIsGood();
    var info := Statement();
    var f := Pack(info, PlainBlob(ca));
    var tbs := ShortSigned(Rsa(0, 0), V01, f, nonce, []);
    var sig := cr.sign(ca, tbs);
    ShortLengths(f, nonce, sig);
    SignedVerifies(cr, ca, tbs);
    ShortCertBySerial(cr, Rsa(0, 0), info, nonce, ca, [], sig);
    assert WithValues(Rsa(0, 0), Pad([], 2)) == Rsa(0, 0);
  }

  lemma ShortLengths(f: Fields, nonce: Nonce, sig: Bytes)
    requires f.keyId == f.principals == f.critical == f.extensions == [] && |f.caBlob| <= 100_000 && |sig| <= 100_000
    ensures FieldsFit(f) && StringFits(sig) && |AfterNumbers(V01, f, nonce, sig)| < 1_000_000
    ensures |ShortSigned(Rsa(0, 0), V01, f, nonce, [])| <= MAX_SIGN_DATA
  {
    NameLength();
  }

  lemma NameLength()
    ensures |NameBytes(Rsa(0, 0), V01)| < 100
  {
    TypeIsName(Rsa(0, 0), V01);
  }
}
