/** Certificates of ssh/key.c: building, signing and parsing.  Signatures and elliptic-curve
    arithmetic are parameters; a point is its octet string. */
module Cert {
  import opened Wire
  import opened Match
  import opened WireStrings

  // ----- Keys and their names

  datatype Curve = Nistp256 | Nistp384 | Nistp521

  datatype Pub = Rsa(e: nat, n: nat) | Dsa(p: nat, q: nat, g: nat, y: nat) | Ecdsa(curve: Curve, point: Bytes)

  datatype Form = Plain | V00 | V01

  datatype KeyType =
    | RsaType(form: Form) | DsaType(form: Form) | EcdsaType(form: Form, nid: Option<Curve>) | Rsa1 | Unspec

  function CurveName(c: Curve): string
  {
    match c
    case Nistp256 => "nistp256"
    case Nistp384 => "nistp384"
    case Nistp521 => "nistp521"
  }

  function CurveOf(s: string): Option<Curve>
  {
    if s == "nistp256" then Some(Nistp256)
    else if s == "nistp384" then Some(Nistp384)
    else if s == "nistp521" then Some(Nistp521)
    else None
  }

  const CERT_V00 := "-cert-v00@openssh.com"
  const CERT_V01 := "-cert-v01@openssh.com"

  function BaseName(pub: Pub): string
  {
    match pub
    case Rsa(_, _) => "ssh-rsa"
    case Dsa(_, _, _, _) => "ssh-dss"
    case Ecdsa(c, _) => EcdsaName(c)
  }

  function EcdsaName(c: Curve): string
  {
    match c
    case Nistp256 => "ecdsa-sha2-nistp256"
    case Nistp384 => "ecdsa-sha2-nistp384"
    case Nistp521 => "ecdsa-sha2-nistp521"
  }

  /** sshkey_ssh_name; there are no version 00 certificates for elliptic curves. */
  function TypeName(pub: Pub, form: Form): string
  {
    match form
    case Plain => BaseName(pub)
    case V01 => BaseName(pub) + CERT_V01
    case V00 => if pub.Ecdsa? then "ssh-unknown" else BaseName(pub) + CERT_V00
  }

  /** sshkey_type_from_name with sshkey_ecdsa_nid_from_name; short names in any case stand for
      the plain types. */
  function TypeFromName(s: string): KeyType
  {
    if Lower(s) == "rsa1" then Rsa1
    else if s == "ssh-rsa" || Lower(s) == "rsa" then RsaType(Plain)
    else if s == "ssh-dss" || Lower(s) == "dsa" then DsaType(Plain)
    else if s == "ecdsa-sha2-nistp256" then EcdsaType(Plain, Some(Nistp256))
    else if Lower(s) == "ecdsa" then EcdsaType(Plain, None)
    else if s == "ecdsa-sha2-nistp384" then EcdsaType(Plain, Some(Nistp384))
    else if s == "ecdsa-sha2-nistp521" then EcdsaType(Plain, Some(Nistp521))
    else CertTypeFromName(s)
  }

  function CertTypeFromName(s: string): KeyType
  {
    if s == "ssh-rsa" + CERT_V01 then RsaType(V01)
    else if s == "ssh-dss" + CERT_V01 then DsaType(V01)
    else if s == "ecdsa-sha2-nistp256" + CERT_V01 then EcdsaType(V01, Some(Nistp256))
    else if s == "ecdsa-sha2-nistp384" + CERT_V01 then EcdsaType(V01, Some(Nistp384))
    else if s == "ecdsa-sha2-nistp521" + CERT_V01 then EcdsaType(V01, Some(Nistp521))
    else if s == "ssh-rsa" + CERT_V00 then RsaType(V00)
    else if s == "ssh-dss" + CERT_V00 then DsaType(V00)
    else Unspec
  }

  function TypeOf(pub: Pub, form: Form): KeyType
  {
    match pub
    case Rsa(_, _) => RsaType(form)
    case Dsa(_, _, _, _) => DsaType(form)
    case Ecdsa(c, _) => EcdsaType(form, Some(c))
  }

  predicate HasName(pub: Pub, form: Form) { !(pub.Ecdsa? && form.V00?) }

  // Names are told apart by their length and one or two characters.

  lemma PlainNames(pub: Pub)
    ensures TypeFromName(BaseName(pub)) == TypeOf(pub, Plain)
  {
    var s := BaseName(pub);
    assert |Lower(s)| == |s|;
    match pub
    case Rsa(_, _) =>
    case Dsa(_, _, _, _) => assert s[4] == 'd';
    case Ecdsa(c, _) =>
      assert |s| == 19 && s[16] == (match c case Nistp256 => '2' case Nistp384 => '3' case Nistp521 => '5');
  }

  lemma LongNames(s: string)
    requires |s| > 19
    ensures TypeFromName(s) == CertTypeFromName(s)
  {
    hide CertTypeFromName;
    assert |Lower(s)| == |s|;
  }

  lemma CertNames(pub: Pub)
    ensures CertTypeFromName(BaseName(pub) + CERT_V01) == TypeOf(pub, V01) && |BaseName(pub) + CERT_V01| > 19
  {
    var s := BaseName(pub) + CERT_V01;
    match pub
    case Rsa(_, _) =>
    case Dsa(_, _, _, _) => assert s[4] == 'd';
    case Ecdsa(c, _) =>
      assert |s| == 40 && s[16] == (match c case Nistp256 => '2' case Nistp384 => '3' case Nistp521 => '5');
  }

  lemma LegacyNames(pub: Pub)
    requires !pub.Ecdsa?
    ensures CertTypeFromName(BaseName(pub) + CERT_V00) == TypeOf(pub, V00) && |BaseName(pub) + CERT_V00| > 19
  {
    var s := BaseName(pub) + CERT_V00;
    assert |s| == 28 && s[4] == (if pub.Rsa? then 'r' else 'd') && s[15] == CERT_V00[8];
    assert ("ssh-rsa" + CERT_V01)[15] == ("ssh-dss" + CERT_V01)[15] == CERT_V01[8];
  }

  lemma NameRoundTrip(pub: Pub, form: Form)
    requires HasName(pub, form)
    ensures TypeFromName(TypeName(pub, form)) == TypeOf(pub, form)
  {
    hide TypeFromName;
    hide CertTypeFromName;
    hide BaseName;
    match form
    case Plain => PlainNames(pub);
    case V01 => CertNames(pub); LongNames(BaseName(pub) + CERT_V01);
    case V00 => LegacyNames(pub); LongNames(BaseName(pub) + CERT_V00);
  }

  /** A name as bytes. */
  function Ascii(s: string): (b: Bytes)
    ensures |b| == |s|
  {
    seq(|s|, i requires 0 <= i < |s| => if s[i] as int < 256 then s[i] as int else 0)
  }

  ghost predicate IsName(s: string) { |s| < 64 && forall i | 0 <= i < |s| :: 0 < s[i] as int < 256 }

  lemma TextOfAscii(s: string)
    requires IsName(s)
    ensures Text(Ascii(s)) == s && IsCString(Ascii(s)) && StringFits(Ascii(s))
  {
  }

  lemma BaseIsName(pub: Pub)
    ensures IsName(BaseName(pub)) && |BaseName(pub)| <= 19
  {
  }

  lemma CurveIsName(c: Curve)
    ensures IsName(CurveName(c))
  {
  }

  lemma SuffixIsName()
    ensures IsName(CERT_V00) && IsName(CERT_V01) && |CERT_V00| == |CERT_V01| == 21
  {
  }

  lemma TypeIsName(pub: Pub, form: Form)
    requires HasName(pub, form)
    ensures IsName(TypeName(pub, form))
  {
    hide BaseName;
    BaseIsName(pub);
    SuffixIsName();
  }

  lemma CurveRoundTrip(c: Curve)
    ensures CurveOf(CurveName(c)) == Some(c)
  {
    var s := CurveName(c);
    assert s[5] == (match c case Nistp256 => '2' case Nistp384 => '3' case Nistp521 => '5');
  }

  // ----- Public parts

  datatype Crypto = Crypto(pointOk: (Curve, Bytes) -> bool, sign: (Pub, Bytes) -> Bytes,
                           verify: (Pub, Bytes, Bytes) -> bool)

  /** What the puts accept. */
  predicate Putable(pub: Pub)
  {
    match pub
    case Rsa(e, n) => CanPutBignum(e) && CanPutBignum(n)
    case Dsa(p, q, g, y) => CanPutBignum(p) && CanPutBignum(q) && CanPutBignum(g) && CanPutBignum(y)
    case Ecdsa(_, point) => StringFits(point)
  }

  function PubBytes(pub: Pub): Bytes
    requires Putable(pub)
  {
    match pub
    case Rsa(e, n) => BignumBytes(e) + BignumBytes(n)
    case Dsa(p, q, g, y) => BignumBytes(p) + (BignumBytes(q) + (BignumBytes(g) + BignumBytes(y)))
    case Ecdsa(c, point) => CurveBytes(c) + StringBytes(point)
  }

  function CurveBytes(c: Curve): Bytes { StringBytes(Ascii(CurveName(c))) }

  /** A number as sshkey_from_blob reads it: a failing get is not noticed and consumes nothing. */
  function Lenient(b: Bytes): Read<nat>
  {
    match GetBignum(b)
    case Ok(r) => r
    case Err(_) => Read(0, b)
  }

  function ReadRsa(b: Bytes): Read<Pub>
  {
    var e := Lenient(b);
    var n := Lenient(e.rest);
    Read(Rsa(e.value, n.value), n.rest)
  }

  function ReadDsa(b: Bytes): Read<Pub>
  {
    var p := Lenient(b);
    var q := Lenient(p.rest);
    var g := Lenient(q.rest);
    var y := Lenient(g.rest);
    Read(Dsa(p.value, q.value, g.value, y.value), y.rest)
  }

  function ReadEcdsa(cr: Crypto, nid: Option<Curve>, b: Bytes): (r: Result<Read<Pub>>)
    ensures r.Ok? ==> |r.value.rest| <= |b|
  {
    var name := GetCString(b);
    if name.Err? then Err(InvalidFormat)
    else if CurveOf(Text(name.value.value)) != nid then Err(EcCurveMismatch)
    else if nid.None? then Err(EcCurveInvalid)
    else
      var point := GetString(name.value.rest);
      if point.Err? then Err(InvalidFormat)
      else if !cr.pointOk(nid.value, point.value.value) then Err(KeyInvalidEcValue)
      else Ok(Read(Ecdsa(nid.value, point.value.value), point.value.rest))
  }

  function ReadPub(cr: Crypto, t: KeyType, b: Bytes): (r: Result<Read<Pub>>)
    requires !t.Rsa1? && !t.Unspec?
    ensures r.Ok? ==> |r.value.rest| <= |b|
  {
    match t
    case RsaType(_) => Ok(ReadRsa(b))
    case DsaType(_) => Ok(ReadDsa(b))
    case EcdsaType(_, nid) => ReadEcdsa(cr, nid, b)
  }

  predicate Readable(cr: Crypto, pub: Pub)
  {
    match pub
    case Rsa(e, n) => Transmissible(e) && Transmissible(n)
    case Dsa(p, q, g, y) => Transmissible(p) && Transmissible(q) && Transmissible(g) && Transmissible(y)
    case Ecdsa(c, point) => StringFits(point) && cr.pointOk(c, point)
  }

  lemma LenientRoundTrip(v: nat, rest: Bytes)
    requires Transmissible(v)
    ensures Lenient(BignumBytes(v) + rest) == Read(v, rest)
  {
    hide GetBignum;
    hide BignumBytes;
    BignumRoundTrip(v, rest);
  }

  lemma RsaRoundTrip(e: nat, n: nat, rest: Bytes)
    requires Transmissible(e) && Transmissible(n)
    ensures ReadRsa(BignumBytes(e) + (BignumBytes(n) + rest)) == Read(Rsa(e, n), rest)
  {
    hide Lenient;
    hide BignumBytes;
    hide NumBits;
    LenientRoundTrip(e, BignumBytes(n) + rest);
    LenientRoundTrip(n, rest);
  }

  lemma DsaRoundTrip(p: nat, q: nat, g: nat, y: nat, rest: Bytes)
    requires Transmissible(p) && Transmissible(q) && Transmissible(g) && Transmissible(y)
    ensures ReadDsa(BignumBytes(p) + (BignumBytes(q) + (BignumBytes(g) + (BignumBytes(y) + rest))))
            == Read(Dsa(p, q, g, y), rest)
  {
    hide Lenient;
    hide BignumBytes;
    hide NumBits;
    LenientRoundTrip(p, BignumBytes(q) + (BignumBytes(g) + (BignumBytes(y) + rest)));
    LenientRoundTrip(q, BignumBytes(g) + (BignumBytes(y) + rest));
    LenientRoundTrip(g, BignumBytes(y) + rest);
    LenientRoundTrip(y, rest);
  }

  lemma EcdsaRoundTrip(cr: Crypto, c: Curve, point: Bytes, rest: Bytes)
    requires StringFits(point)
    ensures ReadEcdsa(cr, Some(c), CurveBytes(c) + (StringBytes(point) + rest))
            == if cr.pointOk(c, point) then Ok(Read(Ecdsa(c, point), rest)) else Err(KeyInvalidEcValue)
  {
    hide GetCString;
    hide GetString;
    hide StringBytes;
    hide Ascii;
    hide Text;
    hide CurveName;
    hide CurveOf;
    CurveRoundTrip(c);
    CurveIsName(c);
    TextOfAscii(CurveName(c));
    CStringRoundTrip(Ascii(CurveName(c)), StringBytes(point) + rest);
    StringRoundTrip(point, rest);
  }

  lemma PubRoundTrip(cr: Crypto, pub: Pub, form: Form, rest: Bytes)
    requires Readable(cr, pub)
    ensures Putable(pub) && ReadPub(cr, TypeOf(pub, form), PubBytes(pub) + rest) == Ok(Read(pub, rest))
  {
    hide ReadRsa;
    hide ReadDsa;
    hide ReadEcdsa;
    hide BignumBytes;
    hide StringBytes;
    hide NumBits;
    match pub
    case Rsa(e, n) =>
      RsaRoundTrip(e, n, rest);
      assert PubBytes(pub) + rest == BignumBytes(e) + (BignumBytes(n) + rest);
    case Dsa(p, q, g, y) =>
      DsaRoundTrip(p, q, g, y, rest);
      assert PubBytes(pub) + rest == BignumBytes(p) + (BignumBytes(q) + (BignumBytes(g) + (BignumBytes(y) + rest)));
    case Ecdsa(c, point) =>
      EcdsaRoundTrip(cr, c, point, rest);
      assert PubBytes(pub) + rest == CurveBytes(c) + (StringBytes(point) + rest);
  }

  // ----- The fields of a certificate

  const MAX_PRINCIPALS: nat := 256

  /** What the issuer states. */
  datatype Info = Info(serial: U64, kind: U32, keyId: Bytes, principals: seq<Bytes>, validAfter: U64, validBefore: U64,
                       critical: Bytes, extensions: Bytes)

  /** The fields as they are on the wire, the principals still packed. */
  datatype Fields = Fields(serial: U64, kind: U32, keyId: Bytes, principals: Bytes, validAfter: U64, validBefore: U64,
                           critical: Bytes, extensions: Bytes, caBlob: Bytes)

  /** The first half: up to the principals. */
  datatype Head = Head(serial: U64, kind: U32, keyId: Bytes, principals: Bytes)

  function ReadHead(v00: bool, b: Bytes): (r: Result<Read<Head>>)
    ensures r.Ok? ==> |r.value.rest| < |b|
  {
    var serial :- if v00 then Ok(Read(0, b)) else GetU64(b);
    var kind :- GetU32(serial.rest);
    var keyId :- GetCString(kind.rest);
    var principals :- GetString(keyId.rest);
    Ok(Read(Head(serial.value, kind.value, keyId.value, principals.value), principals.rest))
  }

  datatype Tail = Tail(validAfter: U64, validBefore: U64, critical: Bytes, extensions: Bytes, caBlob: Bytes)

  /** The second half: in version 00 the nonce takes the place of the extensions. */
  function ReadTail(v00: bool, b: Bytes): (r: Result<Read<Tail>>)
    ensures r.Ok? ==> |r.value.rest| + |r.value.value.caBlob| < |b|
  {
    var after :- GetU64(b);
    var before :- GetU64(after.rest);
    var critical :- GetString(before.rest);
    var extra :- GetString(critical.rest);
    var reserved :- GetString(extra.rest);
    var ca :- GetString(reserved.rest);
    Ok(Read(Tail(after.value, before.value, critical.value, if v00 then [] else extra.value, ca.value), ca.rest))
  }

  function ReadFields(v00: bool, b: Bytes): (r: Result<Read<Fields>>)
    ensures r.Ok? ==> |r.value.rest| + |r.value.value.caBlob| < |b|
  {
    var h :- ReadHead(v00, b);
    var t :- ReadTail(v00, h.rest);
    Ok(Read(Fields(h.value.serial, h.value.kind, h.value.keyId, h.value.principals, t.value.validAfter,
                   t.value.validBefore,
                   t.value.critical, t.value.extensions, t.value.caBlob), t.rest))
  }

  predicate FieldsFit(f: Fields)
  {
    StringFits(f.keyId) && StringFits(f.principals) && StringFits(f.critical) && StringFits(f.extensions)
    && StringFits(f.caBlob)
  }

  function HeadBytes(v00: bool, f: Fields): Bytes
    requires FieldsFit(f)
  {
    (if v00 then [] else U64Bytes(f.serial)) + (U32Bytes(f.kind) + (StringBytes(f.keyId) + StringBytes(f.principals)))
  }

  function TailBytes(v00: bool, f: Fields, nonce: Bytes): Bytes
    requires FieldsFit(f) && StringFits(nonce)
  {
    U64Bytes(f.validAfter) + (U64Bytes(f.validBefore) + (StringBytes(f.critical)
    + (StringBytes(if v00 then nonce else f.extensions) + (StringBytes([]) + StringBytes(f.caBlob)))))
  }

  lemma HeadRoundTrip(v00: bool, f: Fields, rest: Bytes)
    requires FieldsFit(f) && IsCString(f.keyId)
    ensures ReadHead(v00, HeadBytes(v00, f) + rest)
            == Ok(Read(Head(if v00 then 0 else f.serial, f.kind, f.keyId, f.principals), rest))
  {
    hide GetU64;
    hide GetU32;
    hide GetCString;
    hide GetString;
    hide StringBytes;
    hide U32Bytes;
    hide U64Bytes;
    var r2 := StringBytes(f.principals) + rest;
    var r1 := StringBytes(f.keyId) + r2;
    var r0 := U32Bytes(f.kind) + r1;
    U64RoundTrip(f.serial, r0);
    U32RoundTrip(f.kind, r1);
    CStringRoundTrip(f.keyId, r2);
    StringRoundTrip(f.principals, rest);
    assert HeadBytes(v00, f) + rest == (if v00 then [] else U64Bytes(f.serial)) + r0;
    assert [] + r0 == r0;
  }

  lemma TailRoundTrip(v00: bool, f: Fields, nonce: Bytes, rest: Bytes)
    requires FieldsFit(f) && StringFits(nonce)
    ensures ReadTail(v00, TailBytes(v00, f, nonce) + rest)
            == Ok(Read(Tail(f.validAfter, f.validBefore, f.critical, if v00 then [] else f.extensions, f.caBlob), rest))
  {
    hide GetU64;
    hide GetString;
    hide StringBytes;
    hide U64Bytes;
    var extra := if v00 then nonce else f.extensions;
    var r4 := StringBytes(f.caBlob) + rest;
    var r3 := StringBytes([]) + r4;
    var r2 := StringBytes(extra) + r3;
    var r1 := StringBytes(f.critical) + r2;
    var r0 := U64Bytes(f.validBefore) + r1;
    U64RoundTrip(f.validAfter, r0);
    U64RoundTrip(f.validBefore, r1);
    StringRoundTrip(f.critical, r2);
    StringRoundTrip(extra, r3);
    StringRoundTrip([], r4);
    StringRoundTrip(f.caBlob, rest);
    assert TailBytes(v00, f, nonce) + rest == U64Bytes(f.validAfter) + r0;
  }

  lemma FieldsRoundTrip(v00: bool, f: Fields, nonce: Bytes, rest: Bytes)
    requires FieldsFit(f) && StringFits(nonce) && IsCString(f.keyId)
    ensures ReadFields(v00, HeadBytes(v00, f) + (TailBytes(v00, f, nonce) + rest))
            == Ok(Read(if v00 then f.(serial := 0, extensions := []) else f, rest))
  {
    hide ReadHead;
    hide ReadTail;
    hide HeadBytes;
    hide TailBytes;
    hide IsCString;
    HeadRoundTrip(v00, f, TailBytes(v00, f, nonce) + rest);
    TailRoundTrip(v00, f, nonce, rest);
  }

  // ----- Principals and options

  /** The strings of the principals, at most 256 with the `n` already there. */
  function ReadPrincipals(b: Bytes, n: nat): Result<seq<Bytes>>
    decreases |b|
  {
    if b == [] then Ok([])
    else if n >= MAX_PRINCIPALS then Err(InvalidFormat)
    else
      var p := GetCString(b);
      if p.Err? then Err(InvalidFormat)
      else
        var ps :- ReadPrincipals(p.value.rest, n + 1);
        Ok([p.value.value] + ps)
  }

  /** Pairs of strings. */
  predicate WellFormedOptions(b: Bytes)
    decreases |b|
  {
    b == [] ||
    (var name := GetString(b);
     name.Ok? &&
     var data := GetString(name.value.rest);
     data.Ok? && WellFormedOptions(data.value.rest))
  }

  /** The loop over the principals. */
  method ReadPrincipalsLoop(b0: Bytes) returns (r: Result<seq<Bytes>>)
    ensures r == ReadPrincipals(b0, 0)
  {
    hide GetCString;
    var b, principals := b0, [];
    AfterNone(ReadPrincipals(b, 0));
    while b != []
      invariant After(principals, ReadPrincipals(b, |principals|)) == ReadPrincipals(b0, 0)
      decreases |b|
    {
      if |principals| >= MAX_PRINCIPALS { return Err(InvalidFormat); }
      var p := GetCString(b);
      if p.Err? { return Err(InvalidFormat); }
      AfterOne(principals, p.value.value, ReadPrincipals(p.value.rest, |principals| + 1));
      principals, b := principals + [p.value.value], p.value.rest;
    }
    assert principals + [] == principals;
    return Ok(principals);
  }

  function After(done: seq<Bytes>, r: Result<seq<Bytes>>): Result<seq<Bytes>>
  {
    match r
    case Err(e) => Err(e)
    case Ok(more) => Ok(done + more)
  }

  lemma AfterNone(r: Result<seq<Bytes>>)
    ensures After([], r) == r
  {
    if r.Ok? { assert [] + r.value == r.value; }
  }

  lemma AfterOne(done: seq<Bytes>, p: Bytes, r: Result<seq<Bytes>>)
    ensures r.Ok? ==> After(done, Ok([p] + r.value)) == After(done + [p], r)
  {
    if r.Ok? { assert done + ([p] + r.value) == done + [p] + r.value; }
  }

  /** The loops that validate the options. */
  method ValidateOptions(b0: Bytes) returns (ok: bool)
    ensures ok == WellFormedOptions(b0)
  {
    hide GetString;
    var b := b0;
    while b != []
      invariant WellFormedOptions(b) == WellFormedOptions(b0)
      decreases |b|
    {
      var name := GetString(b);
      if name.Err? { return false; }
      var data := GetString(name.value.rest);
      if data.Err? { return false; }
      b := data.value.rest;
    }
    return true;
  }

  /** Principals are read back exactly when there are at most 256. */
  lemma {:induction false} PrincipalsRoundTrip(ps: seq<Bytes>, n: nat)
    requires CStrings(ps)
    ensures ReadPrincipals(NamesBytes(ps), n)
            == if ps == [] || n + |ps| <= MAX_PRINCIPALS then Ok(ps) else Err(InvalidFormat)
    decreases |ps|
  {
    hide GetCString;
    hide StringBytes;
    hide StringFits;
    hide IsCString;
    if ps != [] {
      var rest := NamesBytes(ps[1..]);
      CStringRoundTrip(ps[0], rest);
      NotEmptyBytes(ps[0], rest);
      PrincipalsRoundTrip(ps[1..], n + 1);
      assert [ps[0]] + ps[1..] == ps;
    }
  }

  lemma NotEmptyBytes(s: Bytes, rest: Bytes)
    requires StringFits(s)
    ensures StringBytes(s) + rest != []
  {
  }

  // ----- Signing

  /** SSH_KEY_MAX_SIGN_DATA_SIZE. */
  const MAX_SIGN_DATA: nat := 0x100000

  /** sshkey_sign. */
  function Sign(cr: Crypto, ca: Pub, data: Bytes): Result<Bytes>
  {
    if |data| > MAX_SIGN_DATA then Err(InvalidArgument) else Ok(cr.sign(ca, data))
  }

  /** sshkey_verify. */
  function Verify(cr: Crypto, ca: Pub, sig: Bytes, data: Bytes): Result<()>
  {
    if sig == [] then Err(InternalError)
    else if |data| > MAX_SIGN_DATA then Err(InvalidArgument)
    else if !cr.verify(ca, sig, data) then Err(SignatureInvalid)
    else Ok(())
  }

  /** Signatures that are made are not empty and are accepted. */
  ghost predicate Correct(cr: Crypto)
  {
    forall ca, data :: cr.sign(ca, data) != [] && cr.verify(ca, cr.sign(ca, data), data)
  }

  lemma SignedVerifies(cr: Crypto, ca: Pub, data: Bytes)
    requires Correct(cr)
    ensures Sign(cr, ca, data).Ok? ==> Verify(cr, ca, Sign(cr, ca, data).value, data).Ok?
    ensures Sign(cr, ca, data).Ok? <==> |data| <= MAX_SIGN_DATA
  {
    assert cr.sign(ca, data) != [] && cr.verify(ca, cr.sign(ca, data), data);
  }

  // ----- Parsing

  datatype Certificate = Certificate(info: Info, ca: Pub)

  datatype Key = Key(pub: Pub, form: Form, cert: Option<Certificate>) | UnspecifiedKey

  const USER_CERT := 1
  const HOST_CERT := 2

  function MakeInfo(f: Fields, ps: seq<Bytes>): Info
  {
    Info(f.serial, f.kind, f.keyId, ps, f.validAfter, f.validBefore, f.critical, f.extensions)
  }

  /** The checks of cert_parse on the fields, in order. */
  function CheckFields(f: Fields): Result<Info>
  {
    if f.kind != USER_CERT && f.kind != HOST_CERT then Err(KeyCertUnknownType)
    else
      var ps :- ReadPrincipals(f.principals, 0);
      if WellFormedOptions(f.critical) && WellFormedOptions(f.extensions) then Ok(MakeInfo(f, ps))
      else Err(InvalidFormat)
  }

  /** cert_parse: `b` is what is left of the blob after the key; the signature covers the blob up
      to the signature. */
  function CertParse(cr: Crypto, v00: bool, b: Bytes, blob: Bytes): Result<Read<Certificate>>
    requires |b| < |blob|
    decreases |blob|, 0
  {
    var f := ReadFields(v00, b);
    if f.Err? then Err(InvalidFormat)
    else
      var sig := GetString(f.value.rest);
      if sig.Err? then Err(InvalidFormat)
      else
        var info :- CheckFields(f.value.value);
        var ca := FromBlob(cr, f.value.value.caBlob);
        if ca.Err? || !ca.value.Key? || !ca.value.form.Plain? then Err(KeyCertInvalidSignKey)
        else
          var _ :- Verify(cr, ca.value.pub, sig.value.value, blob[..|blob| - |f.value.rest|]);
          Ok(Read(Certificate(info, ca.value.pub), sig.value.rest))
  }

  /** sshkey_from_blob. */
  function FromBlob(cr: Crypto, blob: Bytes): Result<Key>
    decreases |blob|, 1
  {
    var name := GetCString(blob);
    if name.Err? then Err(InvalidFormat)
    else
      var t := TypeFromName(Text(name.value.value));
      if t.Rsa1? then Err(KeyTypeUnknown)
      else if t.Unspec? then (if name.value.rest == [] then Ok(UnspecifiedKey) else Err(InvalidFormat))
      else KeyFromBlob(cr, t, name.value.rest, blob)
  }

  /** The rest of the blob, for a known type. */
  function KeyFromBlob(cr: Crypto, t: KeyType, b: Bytes, blob: Bytes): Result<Key>
    requires !t.Rsa1? && !t.Unspec? && |b| < |blob|
    decreases |blob|, 1, 0
  {
    var nonce := if t.form.V01? then GetString(b) else Ok(Read([], b));
    if nonce.Err? then Err(InvalidFormat)
    else
      var pub :- ReadPub(cr, t, nonce.value.rest);
      if t.form.Plain? then
        (if pub.rest == [] then Ok(Key(pub.value, Plain, None)) else Err(InvalidFormat))
      else
        var cert :- CertParse(cr, t.form.V00?, pub.rest, blob);
        if cert.rest == [] then Ok(Key(pub.value, t.form, Some(cert.value))) else Err(InvalidFormat)
  }

  // ----- Building

  function NameBytes(pub: Pub, form: Form): Bytes
    requires HasName(pub, form)
  {
    TypeIsName(pub, form); TextOfAscii(TypeName(pub, form)); StringBytes(Ascii(TypeName(pub, form)))
  }

  /** sshkey_to_blob of a plain key. */
  function PlainBlob(pub: Pub): Bytes
    requires Putable(pub)
  {
    NameBytes(pub, Plain) + PubBytes(pub)
  }

  type Nonce = b: Bytes | |b| == 32 witness seq(32, _ => 0)

  function NonceBytes(form: Form, nonce: Nonce): Bytes { if form.V01? then StringBytes(nonce) else [] }

  /** The bytes that are signed. */
  function ToBeSigned(pub: Pub, form: Form, f: Fields, nonce: Nonce): Bytes
    requires HasName(pub, form) && Putable(pub) && FieldsFit(f)
  {
    NameBytes(pub, form) + (NonceBytes(form, nonce) + (PubBytes(pub)
    + (HeadBytes(form.V00?, f) + TailBytes(form.V00?, f, nonce))))
  }

  /** The certificate: the signed bytes and the signature. */
  function CertBlob(tbs: Bytes, sig: Bytes): Bytes
    requires StringFits(sig)
  {
    tbs + StringBytes(sig)
  }

  // ----- Round trips

  lemma NameIsRead(pub: Pub, form: Form, rest: Bytes)
    requires HasName(pub, form)
    ensures GetCString(NameBytes(pub, form) + rest) == Ok(Read(Ascii(TypeName(pub, form)), rest))
    ensures TypeFromName(Text(Ascii(TypeName(pub, form)))) == TypeOf(pub, form)
  {
    hide GetCString;
    hide TypeName;
    hide TypeFromName;
    hide StringBytes;
    TypeIsName(pub, form);
    TextOfAscii(TypeName(pub, form));
    CStringRoundTrip(Ascii(TypeName(pub, form)), rest);
    NameRoundTrip(pub, form);
  }

  /** The blob of a plain key is read back. */
  lemma {:induction false} PlainRoundTrip(cr: Crypto, pub: Pub)
    requires Readable(cr, pub)
    ensures Putable(pub) && FromBlob(cr, PlainBlob(pub)) == Ok(Key(pub, Plain, None))
  {
    hide GetCString;
    hide TypeName;
    hide TypeFromName;
    hide ReadPub;
    hide PubBytes;
    hide NameBytes;
    hide Readable;
    hide Putable;
    PubRoundTrip(cr, pub, Plain, []);
    NameIsRead(pub, Plain, PubBytes(pub));
    assert PubBytes(pub) + [] == PubBytes(pub);
  }

  /** Because failing gets of numbers go unnoticed, a blob that ends before its numbers is not
      refused: it reads as a key whose numbers are zero. */
  lemma {:induction false} NumbersMayBeMissing(cr: Crypto)
    ensures FromBlob(cr, NameBytes(Rsa(0, 0), Plain)) == Ok(Key(Rsa(0, 0), Plain, None))
    ensures NameBytes(Rsa(0, 0), Plain) != PlainBlob(Rsa(0, 0))
  {
    hide GetCString;
    hide TypeName;
    hide TypeFromName;
    hide NameBytes;
    NameIsRead(Rsa(0, 0), Plain, []);
    assert NameBytes(Rsa(0, 0), Plain) + [] == NameBytes(Rsa(0, 0), Plain);
    assert GetBignum([]).Err?;
    assert |BignumBytes(0)| >= 4;
  }

  /** Whether the parser accepts what the issuer stated. */
  predicate Acceptable(info: Info)
  {
    && (info.kind == USER_CERT || info.kind == HOST_CERT) && |info.principals| <= MAX_PRINCIPALS
    && WellFormedOptions(info.critical) && WellFormedOptions(info.extensions)
  }

  /** Version 00 has neither serial numbers nor extensions. */
  function Kept(info: Info, form: Form): Info { if form.V00? then info.(serial := 0, extensions := []) else info }

  ghost predicate GoodInfo(info: Info)
  {
    && CStrings(info.principals) && IsCString(info.keyId) && StringFits(info.keyId) && StringFits(info.critical)
    && StringFits(info.extensions) && StringFits(NamesBytes(info.principals))
  }

  function Pack(info: Info, caBlob: Bytes): Fields
    requires Encodable(info.principals)
  {
    Fields(info.serial, info.kind, info.keyId, NamesBytes(info.principals), info.validAfter, info.validBefore,
           info.critical, info.extensions, caBlob)
  }

  lemma FieldsChecked(info: Info, caBlob: Bytes)
    requires CStrings(info.principals)
    ensures CheckFields(Pack(info, caBlob)) == if Acceptable(info) then Ok(info) else CheckFields(Pack(info, caBlob))
    ensures CheckFields(Pack(info, caBlob)).Ok? <==> Acceptable(info)
  {
    hide ReadPrincipals;
    hide WellFormedOptions;
    hide NamesBytes;
    PrincipalsRoundTrip(info.principals, 0);
  }

  lemma KeptFields(v00: bool, info: Info, form: Form, caBlob: Bytes)
    requires Encodable(info.principals) && v00 == form.V00?
    ensures var f := Pack(info, caBlob);
            (if v00 then f.(serial := 0, extensions := []) else f) == Pack(Kept(info, form), caBlob)
  {
    hide NamesBytes;
  }

  /** cert_parse of what sshkey_certify wrote: it checks the signature over exactly the signed
      bytes, and leaves nothing. */
  lemma {:induction false} CertParsed(cr: Crypto, form: Form, info: Info, nonce: Nonce, ca: Pub, b: Bytes, tbs: Bytes,
                                      sig: Bytes)
    requires GoodInfo(info) && Readable(cr, ca) && Putable(ca) && StringFits(PlainBlob(ca)) && StringFits(sig)
    requires FieldsFit(Pack(info, PlainBlob(ca)))
    requires b == HeadBytes(form.V00?, Pack(info, PlainBlob(ca)))
                  + (TailBytes(form.V00?, Pack(info, PlainBlob(ca)), nonce) + StringBytes(sig))
    requires |b| < |CertBlob(tbs, sig)|
    ensures var r := CertParse(cr, form.V00?, b, CertBlob(tbs, sig));
            if Acceptable(Kept(info, form)) && Verify(cr, ca, sig, tbs).Ok? then
              r == Ok(Read(Certificate(Kept(info, form), ca), []))
            else r.Err?
  {
    hide ReadFields;
    hide HeadBytes;
    hide TailBytes;
    hide PlainBlob;
    hide GetString;
    hide StringBytes;
    hide CheckFields;
    hide FromBlob;
    hide Acceptable;
    hide NamesBytes;
    hide Readable;
    hide Putable;
    var caBlob := PlainBlob(ca);
    var f := Pack(info, caBlob);
    FieldsRoundTrip(form.V00?, f, nonce, StringBytes(sig));
    KeptFields(form.V00?, info, form, caBlob);
    StringRoundTrip(sig, []);
    assert StringBytes(sig) + [] == StringBytes(sig);
    FieldsChecked(Kept(info, form), caBlob);
    PlainRoundTrip(cr, ca);
    assert CertBlob(tbs, sig)[..|tbs|] == tbs;
  }

  /** For every key, certificate form and statement: sshkey_from_blob of the certificate recovers
      the key, the authority and every field that the form carries, with no bytes left, exactly
      when the certificate is for users or hosts, names at most 256 principals, has well-formed
      option lists, and the signature over at most 1 MiB is accepted. */
  lemma {:induction false} CertRoundTrip(cr: Crypto, pub: Pub, form: Form, info: Info, nonce: Nonce, ca: Pub,
                                         sig: Bytes)
    requires !form.Plain? && HasName(pub, form) && Readable(cr, pub) && Readable(cr, ca) && GoodInfo(info)
    requires Putable(pub) && Putable(ca) && StringFits(PlainBlob(ca)) && FieldsFit(Pack(info, PlainBlob(ca)))
    requires StringFits(sig)
    ensures var tbs := ToBeSigned(pub, form, Pack(info, PlainBlob(ca)), nonce);
            var r := FromBlob(cr, CertBlob(tbs, sig));
            if Acceptable(Kept(info, form)) && Verify(cr, ca, sig, tbs).Ok? then
              r == Ok(Key(pub, form, Some(Certificate(Kept(info, form), ca))))
            else r.Err?
  {
    hide GetCString;
    hide TypeName;
    hide TypeFromName;
    hide NameBytes;
    hide StringBytes;
    hide PlainBlob;
    hide Acceptable;
    hide GoodInfo;
    hide Readable;
    hide Putable;
    hide FieldsFit;
    hide Pack;
    hide KeyFromBlob;
    GoodPrincipals(info);
    var f := Pack(info, PlainBlob(ca));
    var tbs := ToBeSigned(pub, form, f, nonce);
    var rest := NonceBytes(form, nonce)
      + (PubBytes(pub) + (HeadBytes(form.V00?, f) + (TailBytes(form.V00?, f, nonce) + StringBytes(sig))));
    Nested(NameBytes(pub, form), NonceBytes(form, nonce), PubBytes(pub), HeadBytes(form.V00?, f),
           TailBytes(form.V00?, f, nonce), StringBytes(sig));
    NameIsRead(pub, form, rest);
    KeyParsed(cr, pub, form, info, nonce, ca, sig, tbs, rest);
  }

  lemma GoodPrincipals(info: Info)
    requires GoodInfo(info)
    ensures Encodable(info.principals)
  {
  }

  lemma Nested(a: Bytes, b: Bytes, c: Bytes, d: Bytes, e: Bytes, f: Bytes)
    ensures (a + (b + (c + (d + e)))) + f == a + (b + (c + (d + (e + f))))
  {
    assert (d + e) + f == d + (e + f);
    assert (c + (d + e)) + f == c + ((d + e) + f);
    assert (b + (c + (d + e))) + f == b + ((c + (d + e)) + f);
  }

  lemma {:induction false} KeyParsed(cr: Crypto, pub: Pub, form: Form, info: Info, nonce: Nonce, ca: Pub, sig: Bytes,
                                     tbs: Bytes, rest: Bytes)
    requires !form.Plain? && HasName(pub, form) && Readable(cr, pub) && Readable(cr, ca) && GoodInfo(info)
    requires Putable(pub) && Putable(ca) && StringFits(PlainBlob(ca)) && FieldsFit(Pack(info, PlainBlob(ca)))
    requires StringFits(sig) && |rest| < |CertBlob(tbs, sig)|
    requires rest == NonceBytes(form, nonce) + (PubBytes(pub) + (HeadBytes(form.V00?, Pack(info, PlainBlob(ca)))
                     + (TailBytes(form.V00?, Pack(info, PlainBlob(ca)), nonce) + StringBytes(sig))))
    ensures var r := KeyFromBlob(cr, TypeOf(pub, form), rest, CertBlob(tbs, sig));
            if Acceptable(Kept(info, form)) && Verify(cr, ca, sig, tbs).Ok? then
              r == Ok(Key(pub, form, Some(Certificate(Kept(info, form), ca))))
            else r.Err?
  {
    hide GetString;
    hide StringBytes;
    hide PlainBlob;
    hide Acceptable;
    hide GoodInfo;
    hide Readable;
    hide Putable;
    hide FieldsFit;
    hide Pack;
    hide ReadPub;
    hide PubBytes;
    hide CertParse;
    hide CertBlob;
    hide HeadBytes;
    hide TailBytes;
    GoodPrincipals(info);
    var f := Pack(info, PlainBlob(ca));
    var b := HeadBytes(form.V00?, f) + (TailBytes(form.V00?, f, nonce) + StringBytes(sig));
    StringRoundTrip(nonce, PubBytes(pub) + b);
    assert [] + (PubBytes(pub) + b) == PubBytes(pub) + b;
    PubRoundTrip(cr, pub, form, b);
    CertParsed(cr, form, info, nonce, ca, b, tbs, sig);
  }

  // ----- What an accepted certificate guarantees

  lemma SuffixTransitive(u: Bytes, t: Bytes, b: Bytes)
    requires Suffix(u, t) && Suffix(t, b)
    ensures Suffix(u, b)
  {
    assert b[|b| - |u|..] == b[|b| - |t|..][|t| - |u|..];
  }

  lemma WordsLeaveSuffix(b: Bytes)
    ensures GetU32(b).Ok? ==> Suffix(GetU32(b).value.rest, b)
    ensures GetU64(b).Ok? ==> Suffix(GetU64(b).value.rest, b)
  {
  }

  lemma StringsLeaveSuffix(b: Bytes)
    ensures GetString(b).Ok? ==> Suffix(GetString(b).value.rest, b)
    ensures GetCString(b).Ok? ==> Suffix(GetCString(b).value.rest, b)
  {
    WordsLeaveSuffix(b);
    if GetU32(b).Ok? {
      var len := GetU32(b).value;
      if len.value <= |len.rest| { SuffixTransitive(len.rest[len.value..], len.rest, b); }
    }
  }

  lemma LenientLeavesSuffix(b: Bytes)
    ensures Suffix(Lenient(b).rest, b)
  {
    StringsLeaveSuffix(b);
  }

  lemma PubLeavesSuffix(cr: Crypto, t: KeyType, b: Bytes)
    requires !t.Rsa1? && !t.Unspec? && ReadPub(cr, t, b).Ok?
    ensures Suffix(ReadPub(cr, t, b).value.rest, b)
  {
    hide Lenient;
    hide GetString;
    hide GetCString;
    hide Suffix;
    match t
    case RsaType(_) =>
      LenientLeavesSuffix(b);
      LenientLeavesSuffix(Lenient(b).rest);
      SuffixTransitive(Lenient(Lenient(b).rest).rest, Lenient(b).rest, b);
    case DsaType(_) => DsaLeavesSuffix(b);
    case EcdsaType(_, nid) =>
      StringsLeaveSuffix(b);
      var rest := GetCString(b).value.rest;
      StringsLeaveSuffix(rest);
      SuffixTransitive(GetString(rest).value.rest, rest, b);
  }

  lemma DsaLeavesSuffix(b: Bytes)
    ensures Suffix(ReadDsa(b).rest, b)
  {
    hide Lenient;
    hide Suffix;
    var p := Lenient(b).rest;
    var q := Lenient(p).rest;
    var g := Lenient(q).rest;
    LenientLeavesSuffix(b);
    LenientLeavesSuffix(p);
    LenientLeavesSuffix(q);
    LenientLeavesSuffix(g);
    SuffixTransitive(q, p, b);
    SuffixTransitive(g, q, b);
    SuffixTransitive(Lenient(g).rest, g, b);
  }

  lemma HeadLeavesSuffix(v00: bool, b: Bytes)
    requires ReadHead(v00, b).Ok?
    ensures Suffix(ReadHead(v00, b).value.rest, b)
  {
    hide GetU32;
    hide GetU64;
    hide GetString;
    hide GetCString;
    WordsLeaveSuffix(b);
    var r0 := if v00 then b else GetU64(b).value.rest;
    WordsLeaveSuffix(r0);
    var r1 := GetU32(r0).value.rest;
    StringsLeaveSuffix(r1);
    var r2 := GetCString(r1).value.rest;
    StringsLeaveSuffix(r2);
    SuffixTransitive(r1, r0, b);
    SuffixTransitive(r2, r1, b);
    SuffixTransitive(GetString(r2).value.rest, r2, b);
  }

  lemma TailLeavesSuffix(v00: bool, b: Bytes)
    requires ReadTail(v00, b).Ok?
    ensures Suffix(ReadTail(v00, b).value.rest, b)
  {
    hide GetU64;
    hide GetString;
    hide Suffix;
    WordsLeaveSuffix(b);
    var r0 := GetU64(b).value.rest;
    WordsLeaveSuffix(r0);
    var r1 := GetU64(r0).value.rest;
    StringsLeaveSuffix(r1);
    var r2 := GetString(r1).value.rest;
    StringsLeaveSuffix(r2);
    var r3 := GetString(r2).value.rest;
    StringsLeaveSuffix(r3);
    var r4 := GetString(r3).value.rest;
    StringsLeaveSuffix(r4);
    SuffixTransitive(r1, r0, b);
    SuffixTransitive(r2, r1, b);
    SuffixTransitive(r3, r2, b);
    SuffixTransitive(r4, r3, b);
    SuffixTransitive(GetString(r4).value.rest, r4, b);
  }

  lemma FieldsLeaveSuffix(v00: bool, b: Bytes)
    requires ReadFields(v00, b).Ok?
    ensures Suffix(ReadFields(v00, b).value.rest, b)
  {
    hide ReadHead;
    hide ReadTail;
    hide Suffix;
    var h := ReadHead(v00, b).value;
    HeadLeavesSuffix(v00, b);
    TailLeavesSuffix(v00, h.rest);
    SuffixTransitive(ReadTail(v00, h.rest).value.rest, h.rest, b);
  }

  lemma {:induction false} PrincipalsAreFew(b: Bytes, n: nat)
    requires ReadPrincipals(b, n).Ok?
    ensures b != [] ==> n + |ReadPrincipals(b, n).value| <= MAX_PRINCIPALS
    ensures b == [] ==> ReadPrincipals(b, n).value == []
    decreases |b|
  {
    hide GetCString;
    if b != [] { PrincipalsAreFew(GetCString(b).value.rest, n + 1); }
  }

  lemma CheckedIsAcceptable(f: Fields)
    requires CheckFields(f).Ok?
    ensures Acceptable(CheckFields(f).value)
  {
    hide ReadPrincipals;
    hide WellFormedOptions;
    PrincipalsAreFew(f.principals, 0);
  }

  /** The blob is `n` bytes and then the signature over them. */
  ghost predicate SignedBy(cr: Crypto, ca: Pub, blob: Bytes, n: nat, sig: Bytes)
  {
    n <= |blob| && GetString(blob[n..]) == Ok(Read(sig, [])) && Verify(cr, ca, sig, blob[..n]).Ok?
  }

  /** Whatever the blob, an accepted certificate ends in a signature of its authority over all the
      bytes before that signature, at most 1 MiB, and states something acceptable. */
  lemma {:induction false} AcceptedIsSigned(cr: Crypto, blob: Bytes)
    requires FromBlob(cr, blob).Ok? && FromBlob(cr, blob).value.Key? && FromBlob(cr, blob).value.cert.Some?
    ensures var cert := FromBlob(cr, blob).value.cert.value;
            Acceptable(cert.info) && exists n, sig :: SignedBy(cr, cert.ca, blob, n, sig)
  {
    hide GetString;
    hide GetCString;
    hide TypeFromName;
    hide ReadPub;
    hide CertParse;
    hide Suffix;
    hide Acceptable;
    var name := GetCString(blob).value;
    StringsLeaveSuffix(blob);
    var t := TypeFromName(Text(name.value));
    var b := if t.form.V01? then GetString(name.rest).value.rest else name.rest;
    StringsLeaveSuffix(name.rest);
    if t.form.V01? { SuffixTransitive(b, name.rest, blob); }
    PubLeavesSuffix(cr, t, b);
    var rest := ReadPub(cr, t, b).value.rest;
    SuffixTransitive(rest, b, blob);
    ParsedIsSigned(cr, t.form.V00?, rest, blob);
  }

  lemma {:induction false} ParsedIsSigned(cr: Crypto, v00: bool, b: Bytes, blob: Bytes)
    requires |b| < |blob| && Suffix(b, blob) && CertParse(cr, v00, b, blob).Ok?
             && CertParse(cr, v00, b, blob).value.rest == []
    ensures var cert := CertParse(cr, v00, b, blob).value.value;
            Acceptable(cert.info) && exists n, sig :: SignedBy(cr, cert.ca, blob, n, sig)
  {
    hide ReadFields;
    hide GetString;
    hide CheckFields;
    hide FromBlob;
    hide Acceptable;
    var f := ReadFields(v00, b).value;
    FieldsLeaveSuffix(v00, b);
    SuffixTransitive(f.rest, b, blob);
    CheckedIsAcceptable(f.value);
    var cert := CertParse(cr, v00, b, blob).value.value;
    var n := |blob| - |f.rest|;
    assert blob[n..] == f.rest;
    assert SignedBy(cr, cert.ca, blob, n, GetString(f.rest).value.value);
  }

  // ----- sshkey_certify

  /** The blob of the authority can be made. */
  predicate CaFits(ca: Pub) { Putable(ca) && |PlainBlob(ca)| <= SSHBUF_SIZE_MAX }

  /** Everything can be put into the buffers, and there is at most 1 MiB to sign. */
  predicate CertFits(cr: Crypto, pub: Pub, form: Form, info: Info, nonce: Nonce, ca: Pub)
    requires HasName(pub, form) && CaFits(ca)
  {
    && Putable(pub) && AllFit([], info.principals) && FieldsFit(Pack(info, PlainBlob(ca)))
    && var tbs := ToBeSigned(pub, form, Pack(info, PlainBlob(ca)), nonce);
       |tbs| <= MAX_SIGN_DATA && StringFits(cr.sign(ca, tbs)) && |CertBlob(tbs, cr.sign(ca, tbs))| <= SSHBUF_SIZE_MAX
  }

  /** What is left in the buffer when the RSA modulus cannot be put: this is reported as success. */
  function Unfinished(pub: Pub, form: Form, nonce: Nonce): Bytes
    requires HasName(pub, form) && pub.Rsa? && CanPutBignum(pub.e)
  {
    NameBytes(pub, form) + NonceBytes(form, nonce) + BignumBytes(pub.e)
  }

  /** The RSA modulus cannot be put, but the exponent can. */
  predicate EndsEarly(pub: Pub) { pub.Rsa? && CanPutBignum(pub.e) && !CanPutBignum(pub.n) }

  /** sshkey_certify succeeds exactly when everything fits, with the certificate, or the RSA
      modulus has more than 8192 bits, with an unfinished one.  The certificate is read back as
      it was issued exactly when the parser accepts what it states. */
  method Certify(cr: Crypto, pub: Pub, form: Form, info: Info, nonce: Nonce, ca: Key) returns (r: Result<Bytes>)
    requires HasName(pub, form)
    ensures form.Plain? ==> r == Err(KeyTypeUnknown)
    ensures !form.Plain? && (!ca.Key? || !ca.form.Plain? || !CaFits(ca.pub)) ==> r == Err(KeyCertInvalidSignKey)
    ensures !form.Plain? && ca.Key? && ca.form.Plain? && CaFits(ca.pub) ==>
              (r.Ok? <==> CertFits(cr, pub, form, info, nonce, ca.pub) || EndsEarly(pub))
    ensures r.Ok? && EndsEarly(pub) ==> r.value == Unfinished(pub, form, nonce)
    ensures r.Ok? && !EndsEarly(pub) ==>
              var tbs := ToBeSigned(pub, form, Pack(info, PlainBlob(ca.pub)), nonce);
              r.value == CertBlob(tbs, cr.sign(ca.pub, tbs))
    ensures r.Ok? && !EndsEarly(pub) && Correct(cr) && Readable(cr, pub) && Readable(cr, ca.pub) && GoodInfo(info) ==>
              (FromBlob(cr, r.value) == Ok(Key(pub, form, Some(Certificate(Kept(info, form), ca.pub))))
               <==> Acceptable(Kept(info, form)))
  {
    hide NameBytes;
    hide PubBytes;
    hide HeadBytes;
    hide TailBytes;
    hide StringBytes;
    hide BignumBytes;
    hide CanPutBignum;
    hide NamesBytes;
    hide FromBlob;
    hide Acceptable;
    hide Readable;
    hide GoodInfo;
    hide Correct;
    if form.Plain? { return Err(KeyTypeUnknown); }
    if !ca.Key? || !ca.form.Plain? || !CaFits(ca.pub) { return Err(KeyCertInvalidSignKey); }
    if EndsEarly(pub) { return Ok(Unfinished(pub, form, nonce)); }
    if !Putable(pub) { return Err(InvalidArgument); }
    var principals :- PutStrings([], info.principals);
    assert [] + NamesBytes(info.principals) == NamesBytes(info.principals);
    var f := Pack(info, PlainBlob(ca.pub));
    if !FieldsFit(f) { return Err(NoBufferSpace); }
    var tbs := ToBeSigned(pub, form, f, nonce);
    if |tbs| > SSHBUF_SIZE_MAX { return Err(NoBufferSpace); }
    var sig :- Sign(cr, ca.pub, tbs);
    r := PutString(tbs, sig);
    if r.Ok? && Correct(cr) && Readable(cr, pub) && Readable(cr, ca.pub) && GoodInfo(info) {
      SignedVerifies(cr, ca.pub, tbs);
      CertRoundTrip(cr, pub, form, info, nonce, ca.pub, sig);
    }
  }
}
