/** Whole key revocation lists without signatures: ssh_krl_to_blob and ssh_krl_from_blob of
    ssh/krl.c. */
module KrlBlob {
  import opened Wire
  import opened SerialTree
  import opened KrlParse
  import opened KrlGenerate

  const MAGIC: Bytes := [0x53, 0x53, 0x48, 0x4B, 0x52, 0x4C, 0x0A, 0x00]
  const FORMAT_VERSION := 1
  const CERTIFICATES := 1
  const EXPLICIT_KEY := 2
  const FINGERPRINT_SHA1 := 3
  const SIGNATURE := 4

  /** What a list denotes. */
  datatype Contents = Contents(version: U64, date: U64, flags: U64, comment: Bytes,
                               keys: set<Bytes>, sha1s: set<Bytes>, certs: Certs)

  // ----- Reading

  /** The first pass of ssh_krl_from_blob over a list without signatures. */
  function Skim(buf: Bytes): Result<()>
    decreases |buf|
  {
    if buf == [] then Ok(())
    else
      var s :- GetString(buf[1..]);
      if buf[0] == SIGNATURE then Err(SignatureSection) else Skim(s.rest)
  }

  function LoadBlobs(kind: Byte, sect: Bytes, c: Contents): Result<Contents>
    decreases |sect|
  {
    if sect == [] then Ok(c)
    else
      var b :- GetString(sect);
      if kind == FINGERPRINT_SHA1 && |b.value| != 20 then Err(InvalidFormat)
      else if kind == EXPLICIT_KEY then LoadBlobs(kind, b.rest, c.(keys := c.keys + {b.value}))
      else LoadBlobs(kind, b.rest, c.(sha1s := c.sha1s + {b.value}))
  }

  function LoadSection(kind: Byte, sect: Bytes, accepts: Bytes -> bool, c: Contents): Result<Contents>
  {
    if kind == CERTIFICATES then
      var certs :- ParseCerts(sect, accepts, c.certs);
      Ok(c.(certs := certs))
    else if kind == EXPLICIT_KEY || kind == FINGERPRINT_SHA1 then LoadBlobs(kind, sect, c)
    else Err(InvalidFormat)
  }

  /** The second pass. */
  function Load(buf: Bytes, accepts: Bytes -> bool, c: Contents): Result<Contents>
    decreases |buf|
  {
    if buf == [] then Ok(c)
    else
      var s :- GetString(buf[1..]);
      var c' :- LoadSection(buf[0], s.value, accepts, c);
      Load(s.rest, accepts, c')
  }

  /** The fixed part of the header: format, version, date, flags and a reserved string. */
  function GetPreamble(buf: Bytes): Result<Read<(U64, U64, U64)>>
  {
    var format :- GetU32(buf);
    if format.value != FORMAT_VERSION then Err(InvalidFormat)
    else
      var version :- GetU64(format.rest);
      var date :- GetU64(version.rest);
      var flags :- GetU64(date.rest);
      var reserved :- GetString(flags.rest);
      Ok(Read((version.value, date.value, flags.value), reserved.rest))
  }

  /** ssh_krl_from_blob. */
  function FromBlob(buf: Bytes, accepts: Bytes -> bool): Result<Contents>
  {
    if |buf| < |MAGIC| || buf[..|MAGIC|] != MAGIC then Err(BadMagic)
    else
      var p :- GetPreamble(buf[|MAGIC|..]);
      var comment :- GetCString(p.rest);
      var _ :- Skim(comment.rest);
      Load(comment.rest, accepts,
           Contents(p.value.0, p.value.1, p.value.2, comment.value, {}, {}, map[]))
  }

  // ----- Sections one after another

  ghost function LoadAll(ss: seq<Section>, accepts: Bytes -> bool, c: Contents): Result<Contents>
  {
    if ss == [] then Ok(c)
    else
      var c' :- LoadAll(ss[..|ss| - 1], accepts, c);
      LoadSection(ss[|ss| - 1].kind, ss[|ss| - 1].body, accepts, c')
  }

  lemma {:induction false} LoadOneSection(s: Section, rest: Bytes, accepts: Bytes -> bool, c: Contents)
    requires StringFits(s.body)
    ensures Load(SectionBytes(s) + rest, accepts, c)
            == match LoadSection(s.kind, s.body, accepts, c)
               case Ok(c') => Load(rest, accepts, c')
               case Err(e) => Err(e)
  {
    var buf := SectionBytes(s) + rest;
    assert buf[1..] == StringBytes(s.body) + rest;
    StringRoundTrip(s.body, rest);
  }

  lemma {:induction false} LoadEncoded(ss: seq<Section>, rest: Bytes, accepts: Bytes -> bool, c: Contents)
    requires Sections(ss)
    ensures Load(Encode(ss) + rest, accepts, c)
            == match LoadAll(ss, accepts, c)
               case Ok(c') => Load(rest, accepts, c')
               case Err(e) => Err(e)
  {
    if ss == [] {
      assert Encode(ss) + rest == rest;
    } else {
      var init, last := ss[..|ss| - 1], ss[|ss| - 1];
      Assoc(Encode(init), SectionBytes(last), rest);
      LoadEncoded(init, SectionBytes(last) + rest, accepts, c);
      if LoadAll(init, accepts, c).Ok? { LoadOneSection(last, rest, accepts, LoadAll(init, accepts, c).value); }
    }
  }

  ghost predicate Unsigned(ss: seq<Section>)
  {
    Sections(ss) && forall i | 0 <= i < |ss| :: ss[i].kind != SIGNATURE
  }

  lemma {:induction false} SkimOneSection(s: Section, rest: Bytes)
    requires StringFits(s.body) && s.kind != SIGNATURE
    ensures Skim(SectionBytes(s) + rest) == Skim(rest)
  {
    var buf := SectionBytes(s) + rest;
    assert buf[1..] == StringBytes(s.body) + rest;
    StringRoundTrip(s.body, rest);
  }

  lemma {:induction false} SkimEncoded(ss: seq<Section>, rest: Bytes)
    requires Unsigned(ss)
    ensures Skim(Encode(ss) + rest) == Skim(rest)
  {
    if ss == [] {
      assert Encode(ss) + rest == rest;
    } else {
      var init, last := ss[..|ss| - 1], ss[|ss| - 1];
      Assoc(Encode(init), SectionBytes(last), rest);
      SkimEncoded(init, SectionBytes(last) + rest);
      SkimOneSection(last, rest);
    }
  }

  // ----- The header

  function Preamble(version: U64, date: U64, flags: U64): Bytes
  {
    U32Bytes(FORMAT_VERSION) + (U64Bytes(version) + (U64Bytes(date) + (U64Bytes(flags) + StringBytes([]))))
  }

  lemma {:induction false} ReadPreamble(version: U64, date: U64, flags: U64, rest: Bytes)
    ensures GetPreamble(Preamble(version, date, flags) + rest) == Ok(Read((version, date, flags), rest))
  {
    var e := StringBytes([]);
    var f := U64Bytes(flags) + e;
    var d := U64Bytes(date) + f;
    var v := U64Bytes(version) + d;
    Assoc(U32Bytes(FORMAT_VERSION), v, rest);
    Assoc(U64Bytes(version), d, rest);
    Assoc(U64Bytes(date), f, rest);
    Assoc(U64Bytes(flags), e, rest);
    U32RoundTrip(FORMAT_VERSION, v + rest);
    U64RoundTrip(version, d + rest);
    U64RoundTrip(date, f + rest);
    U64RoundTrip(flags, e + rest);
    StringRoundTrip([], rest);
  }

  /** A blob made of the header and sections is read section by section. */
  lemma {:induction false} ReadBlob(version: U64, date: U64, flags: U64, comment: Bytes,
                                    ss: seq<Section>, accepts: Bytes -> bool)
    requires StringFits(comment) && IsCString(comment) && Unsigned(ss)
    ensures FromBlob(MAGIC + (Preamble(version, date, flags) + (StringBytes(comment) + Encode(ss))), accepts)
            == LoadAll(ss, accepts, Contents(version, date, flags, comment, {}, {}, map[]))
  {
    var body := StringBytes(comment) + Encode(ss);
    var tail := Preamble(version, date, flags) + body;
    var buf := MAGIC + tail;
    assert buf[..|MAGIC|] == MAGIC && buf[|MAGIC|..] == tail;
    ReadPreamble(version, date, flags, body);
    CStringRoundTrip(comment, Encode(ss));
    assert Encode(ss) + [] == Encode(ss);
    SkimEncoded(ss, []);
    LoadEncoded(ss, [], accepts, Contents(version, date, flags, comment, {}, {}, map[]));
  }

  // ----- Writing

  /** Under one CA: the serials and the key IDs, in tree order. */
  datatype CertList = CertList(ca: Bytes, serials: seq<Range>, keyIds: seq<Bytes>)

  /** The list in memory: trees in tree order, CAs in the order they were added. */
  datatype Krl = Krl(version: U64, date: U64, flags: U64, comment: Bytes,
                     keys: seq<Bytes>, sha1s: seq<Bytes>, certs: seq<CertList>)

  /** What the revocation functions maintain. */
  ghost predicate Valid(krl: Krl, accepts: Bytes -> bool)
  {
    && IsCString(krl.comment)
    && (forall i | 0 <= i < |krl.sha1s| :: |krl.sha1s[i]| == 20)
    && AllValid(krl.certs, accepts)
  }

  ghost predicate AllValid(certs: seq<CertList>, accepts: Bytes -> bool)
  {
    forall i | 0 <= i < |certs| :: ValidCerts(certs[i], accepts)
  }

  ghost predicate ValidCerts(c: CertList, accepts: Bytes -> bool)
  {
    && accepts(c.ca) && Stored(c.serials)
    && (c.serials != [] || c.keyIds != [])
    && forall i | 0 <= i < |c.keyIds| :: IsCString(c.keyIds[i])
  }

  ghost function Meaning(krl: Krl): Contents
  {
    Contents(krl.version, krl.date, krl.flags, krl.comment, Elements(krl.keys), Elements(krl.sha1s),
             CertMeaning(krl.certs))
  }

  ghost function CertMeaning(certs: seq<CertList>): Certs
  {
    if certs == [] then map[]
    else
      var c := certs[|certs| - 1];
      CertMeaning(certs[..|certs| - 1])[c.ca := Revoked(c.serials, Elements(c.keyIds))]
  }

  /** The lists that survive being written and read: at most one CA, whose serials do. */
  ghost predicate Readable(certs: seq<CertList>, accepts: Bytes -> bool)
    requires AllValid(certs, accepts)
  {
    certs == [] || (|certs| == 1 && ValidCerts(certs[0], accepts) && Representable(certs[0].serials))
  }

  /** A section that starts with the section of one CA and goes on with another's. */
  lemma {:induction false} TwoCas(ca1: Bytes, done1: seq<Section>, ca2: Bytes, rest: Bytes,
                                  accepts: Bytes -> bool, certs: Certs)
    requires StringFits(ca1) && accepts(ca1) && Sections(done1) && |ca2| < SSHBUF_SIZE_MAX
    ensures ParseCerts(Header(ca1) + Encode(done1) + (Header(ca2) + rest), accepts, certs).Err?
  {
    var tail := Header(ca2) + rest;
    Assoc(Header(ca1), Encode(done1), tail);
    ParseGenerated(ca1, done1, tail, accepts, certs);
    if ApplyAll(done1, Lookup(certs, ca1)).Ok? {
      HeaderIsNoSection(ca2, rest, ApplyAll(done1, Lookup(certs, ca1)).value);
    }
  }

  lemma {:induction false} LoadBlobList(kind: Byte, blobs: seq<Bytes>, n: nat, rest: Bytes, c: Contents)
    requires kind == EXPLICIT_KEY || kind == FINGERPRINT_SHA1
    requires n <= |blobs| && forall i | 0 <= i < |blobs| :: StringFits(blobs[i])
    requires kind == FINGERPRINT_SHA1 ==> forall i | 0 <= i < |blobs| :: |blobs[i]| == 20
    ensures LoadBlobs(kind, StringsBody(blobs, n) + rest, c)
            == LoadBlobs(kind, rest, if kind == EXPLICIT_KEY then c.(keys := c.keys + Elements(blobs[..n]))
                                     else c.(sha1s := c.sha1s + Elements(blobs[..n])))
  {
    if n == 0 {
      assert [] + rest == rest;
      assert c.keys + Elements(blobs[..0]) == c.keys && c.sha1s + Elements(blobs[..0]) == c.sha1s;
    } else {
      var b := blobs[n - 1];
      ElementsSnoc(blobs, n - 1);
      assert c.keys + Elements(blobs[..n]) == c.keys + Elements(blobs[..n - 1]) + {b};
      assert c.sha1s + Elements(blobs[..n]) == c.sha1s + Elements(blobs[..n - 1]) + {b};
      Assoc(StringsBody(blobs, n - 1), StringBytes(b), rest);
      LoadBlobList(kind, blobs, n - 1, StringBytes(b) + rest, c);
      StringRoundTrip(b, rest);
    }
  }

  /** What the certificate sections of the writer are read as. */
  ghost predicate CertsWritten(certs: seq<CertList>, ss: seq<Section>, accepts: Bytes -> bool, c: Contents)
    requires AllValid(certs, accepts)
  {
    && (LoadAll(ss, accepts, c) == Ok(c.(certs := CertMeaning(certs))) <==> Readable(certs, accepts))
    && (LoadAll(ss, accepts, c).Ok? ==>
        LoadAll(ss, accepts, c).value == c.(certs := LoadAll(ss, accepts, c).value.certs))
    && (|certs| > 1 ==> LoadAll(ss, accepts, c).Err?)
    && (|certs| == 1 && ValidCerts(certs[0], accepts) && Refused(certs[0].serials) ==> LoadAll(ss, accepts, c).Err?)
    && (|certs| == 1 && !Readable(certs, accepts) && LoadAll(ss, accepts, c).Ok? ==>
          Cut(certs[0], LoadAll(ss, accepts, c).value.certs))
  }

  /** Only the first of the CA's ranges are there, and none of its key IDs. */
  ghost predicate Cut(l: CertList, certs: Certs)
  {
    exists rc :: CutShort(l.serials, rc) && certs == Update(map[], l.ca, rc)
  }

  /** Serials that are written to the end, and then cannot be read. */
  predicate Refused(s: seq<Range>)
    requires Stored(s)
  {
    !Representable(s) && Stop(s, 0) == |s|
  }

  lemma {:induction false} OneCa(l: CertList, done: seq<Section>, accepts: Bytes -> bool, c: Contents)
    requires ValidCerts(l, accepts) && StringFits(l.ca) && Sections(done) && c.certs == map[]
    requires ApplyAll(done, NOTHING) == Ok(Revoked(l.serials, Elements(l.keyIds))) <==> Representable(l.serials)
    requires Refused(l.serials) ==> ApplyAll(done, NOTHING).Err?
    requires !Representable(l.serials) ==> Partial(l.serials, done)
    ensures CertsWritten([l], [Section(CERTIFICATES, Header(l.ca) + Encode(done))], accepts, c)
  {
    var body := Header(l.ca) + Encode(done);
    var ss := [Section(CERTIFICATES, body)];
    assert ss[..0] == [] && [l][..0] == [];
    assert Encode(done) + [] == Encode(done);
    ParseGenerated(l.ca, done, [], accepts, map[]);
    var rc := Revoked(l.serials, Elements(l.keyIds));
    assert rc != NOTHING by { if l.keyIds != [] { assert l.keyIds[0] in Elements(l.keyIds); } }
    assert CertMeaning([l]) == map[l.ca := rc];
    assert LoadAll(ss[..0], accepts, c) == Ok(c);
    assert LoadAll(ss, accepts, c) == LoadSection(CERTIFICATES, body, accepts, c);
    var got := ApplyAll(done, NOTHING);
    if got.Ok? {
      assert LoadAll(ss, accepts, c) == Ok(c.(certs := Update(map[], l.ca, got.value)));
      assert Update(map[], l.ca, got.value) == map[l.ca := rc] <==> got.value == rc by {
        if got.value != NOTHING {
          assert map[l.ca := got.value][l.ca] == got.value;
          assert map[l.ca := rc][l.ca] == rc;
        } else {
          assert l.ca in map[l.ca := rc];
        }
      }
    }
  }

  lemma {:induction false} AnotherCa(certs: seq<CertList>, i: nat, done: seq<Section>, sect: Bytes, done': seq<Section>,
                                     sect': Bytes, ss: seq<Section>, accepts: Bytes -> bool, c: Contents)
    requires 0 < i < |certs| && AllValid(certs, accepts) && StringFits(certs[0].ca) && Sections(done)
    requires i == 1 ==> sect == Header(certs[0].ca) + Encode(done)
    requires i > 1 ==> LoadAll(ss, accepts, c).Err?
    requires |certs[i].ca| < SSHBUF_SIZE_MAX && Output(sect + Header(certs[i].ca), sect', done')
    ensures CertsWritten(certs[..i + 1], ss + [Section(CERTIFICATES, sect')], accepts, c)
  {
    var last := Section(CERTIFICATES, sect');
    assert (ss + [last])[..|ss|] == ss;
    assert LoadAll(ss + [last], accepts, c).Err? by {
      if LoadAll(ss, accepts, c).Ok? {
        Assoc(sect, Header(certs[i].ca), Encode(done'));
        assert ValidCerts(certs[0], accepts);
        TwoCas(certs[0].ca, done, certs[i].ca, Encode(done'), accepts, LoadAll(ss, accepts, c).value.certs);
      }
    }
  }

  // ----- What is written

  ghost predicate AllStored(certs: seq<CertList>) { forall i | 0 <= i < |certs| :: Stored(certs[i].serials) }

  /** The sections of the first `i` CAs can be generated. */
  ghost predicate CasFit(certs: seq<CertList>, i: nat)
    requires i <= |certs| && AllStored(certs)
    decreases i, 0
  {
    hide Stored;
    hide CertsFit;
    i == 0 || (CasFit(certs, i - 1)
               && var l := certs[i - 1]; CertsFit(SectAfter(certs, i - 1), l.ca, l.serials, l.keyIds))
  }

  /** The section buffer after `i` CAs: it is not emptied between them. */
  ghost function SectAfter(certs: seq<CertList>, i: nat): (sect: Bytes)
    requires i <= |certs| && AllStored(certs) && CasFit(certs, i)
    ensures |sect| <= SSHBUF_SIZE_MAX
    decreases i, 1
  {
    hide Stored;
    hide CertsFit;
    if i == 0 then []
    else var l := certs[i - 1]; Generated(SectAfter(certs, i - 1), l.ca, l.serials, l.keyIds)
  }

  ghost function CaSections(certs: seq<CertList>, i: nat): seq<Section>
    requires i <= |certs| && AllStored(certs) && CasFit(certs, i)
  {
    hide Stored;
    hide CertsFit;
    hide SectAfter;
    if i == 0 then [] else CaSections(certs, i - 1) + [Section(CERTIFICATES, SectAfter(certs, i))]
  }

  lemma {:induction false} CasFitEarlier(certs: seq<CertList>, i: nat, n: nat)
    requires i <= n <= |certs| && AllStored(certs) && CasFit(certs, n)
    ensures CasFit(certs, i) && Size(CaSections(certs, i)) <= Size(CaSections(certs, n))
  {
    hide CertsFit;
    hide SectAfter;
    if i < n {
      CasFitEarlier(certs, i, n - 1);
      SizeSnoc(CaSections(certs, n - 1), Section(CERTIFICATES, SectAfter(certs, n)));
    }
  }

  /** The sections of all CAs fit after that many bytes. */
  ghost predicate CertsFitAfter(certs: seq<CertList>, len: nat)
    requires AllStored(certs)
  {
    CasFit(certs, |certs|) && len + Size(CaSections(certs, |certs|)) <= SSHBUF_SIZE_MAX
  }

  ghost function AllCaSections(certs: seq<CertList>): seq<Section>
    requires AllStored(certs) && CasFit(certs, |certs|)
  {
    CaSections(certs, |certs|)
  }

  /** The sections for the revoked certificates: when writing them succeeds, and what is written. */
  method WriteCerts(header: Bytes, certs: seq<CertList>) returns (r: Result<Bytes>)
    requires AllStored(certs) && |header| <= SSHBUF_SIZE_MAX
    ensures r.Ok? <==> CertsFitAfter(certs, |header|)
    ensures r.Ok? ==> Output(header, r.value, AllCaSections(certs))
  {
    hide CertsFit;
    hide SectAfter;
    var buf, sect: Bytes := header, [];
    assert header + Encode([]) == header;
    SectAtFirst(certs);
    for i := 0 to |certs|
      invariant CasFit(certs, i) && sect == SectAfter(certs, i) && |buf| <= SSHBUF_SIZE_MAX
      invariant Output(header, buf, CaSections(certs, i)) && |buf| == |header| + Size(CaSections(certs, i))
    {
      var l := certs[i];
      var x := RevokedCertsGenerate(sect, l.ca, l.serials, l.keyIds);
      if x.Err? {
        if CasFit(certs, |certs|) { CasFitEarlier(certs, i + 1, |certs|); }
        return x;
      }
      SectGrows(certs, i, x.value);
      ghost var last := Section(CERTIFICATES, x.value);
      SizeSnoc(CaSections(certs, i), last);
      r := FlushSection(buf, CERTIFICATES, x.value, 0);
      if r.Err? {
        if CasFit(certs, |certs|) { CasFitEarlier(certs, i + 1, |certs|); }
        return;
      }
      EncodeSnoc(header, CaSections(certs, i), last);
      sect, buf := x.value, r.value;
    }
    r := Ok(buf);
  }

  lemma {:induction false} SectAtFirst(certs: seq<CertList>)
    requires AllStored(certs)
    ensures CasFit(certs, 0) && SectAfter(certs, 0) == []
  {
  }

  lemma SectGrows(certs: seq<CertList>, i: nat, sect: Bytes)
    requires i < |certs| && AllStored(certs) && CasFit(certs, i)
    requires CertsFit(SectAfter(certs, i), certs[i].ca, certs[i].serials, certs[i].keyIds)
    requires sect == Generated(SectAfter(certs, i), certs[i].ca, certs[i].serials, certs[i].keyIds)
    ensures CasFit(certs, i + 1) && SectAfter(certs, i + 1) == sect
  {
    hide CertsFit;
    hide Stop;
    hide CertSections;
  }

  // ----- What it is read as

  lemma {:induction false} CaSectionsRead(certs: seq<CertList>, i: nat, accepts: Bytes -> bool, c: Contents)
    requires i <= |certs| && AllStored(certs) && AllValid(certs, accepts) && c.certs == map[] && CasFit(certs, i)
    ensures CertsWritten(certs[..i], CaSections(certs, i), accepts, c)
  {
    hide CertsWritten;
    hide AllValid;
    hide AllStored;
    hide CaSections;
    hide CasFit;
    if i == 0 {
      NoCas(certs, accepts, c);
    } else {
      CasFitEarlier(certs, i - 1, i);
      CaSectionsRead(certs, i - 1, accepts, c);
      if i == 1 { FirstCa(certs, accepts, c); } else { NextCa(certs, i - 1, accepts, c); }
    }
  }

  lemma {:induction false} CaSectionsUnsigned(certs: seq<CertList>, i: nat)
    requires i <= |certs| && AllStored(certs) && CasFit(certs, i)
    ensures Unsigned(CaSections(certs, i))
  {
    hide CertsFit;
    hide SectAfter;
    hide AllStored;
    if i > 0 { CaSectionsUnsigned(certs, i - 1); }
  }

  lemma {:induction false} NoCas(certs: seq<CertList>, accepts: Bytes -> bool, c: Contents)
    requires AllStored(certs) && AllValid(certs, accepts) && c.certs == map[]
    ensures CertsWritten(certs[..0], CaSections(certs, 0), accepts, c)
  {
    assert c.(certs := map[]) == c;
  }

  lemma {:induction false} FirstCa(certs: seq<CertList>, accepts: Bytes -> bool, c: Contents)
    requires 0 < |certs| && AllStored(certs) && AllValid(certs, accepts) && c.certs == map[] && CasFit(certs, 1)
    ensures CertsWritten(certs[..1], CaSections(certs, 1), accepts, c)
  {
    hide CertsWritten;
    hide Representable;
    hide SerialsFit;
    var l := certs[0];
    assert ValidCerts(l, accepts);
    SectOfFirst(certs);
    CaSectionsNext(certs, 0);
    var done := CertSections(l.serials, l.keyIds);
    assert certs[..1] == [l];
    assert CaSections(certs, 1) == [Section(CERTIFICATES, Header(l.ca) + Encode(done))];
    OneCaDenotes(l);
    OneCa(l, done, accepts, c);
  }

  lemma OneCaDenotes(l: CertList)
    requires Stored(l.serials) && SerialsFit(l.serials) && (Stop(l.serials, 0) == |l.serials| ==> AllStrings(l.keyIds))
    requires forall i | 0 <= i < |l.keyIds| :: IsCString(l.keyIds[i])
    ensures var done := CertSections(l.serials, l.keyIds);
            && (ApplyAll(done, NOTHING) == Ok(Revoked(l.serials, Elements(l.keyIds))) <==> Representable(l.serials))
            && (Refused(l.serials) ==> ApplyAll(done, NOTHING).Err?)
            && (!Representable(l.serials) ==> Partial(l.serials, done))
  {
    hide SerialsFit;
    hide SerialSections;
    hide Representable;
    hide IsCString;
    if Stop(l.serials, 0) == |l.serials| {
      CertSectionsDenote(l.serials, l.keyIds);
    } else {
      SerialsDenote(l.serials);
      assert SerialSections(l.serials) + [] == SerialSections(l.serials);
    }
  }

  lemma NextCa(certs: seq<CertList>, i: nat, accepts: Bytes -> bool, c: Contents)
    requires 0 < i < |certs| && AllStored(certs) && AllValid(certs, accepts) && c.certs == map[]
    requires CasFit(certs, i) && CasFit(certs, i + 1)
    requires CertsWritten(certs[..i], CaSections(certs, i), accepts, c)
    ensures CertsWritten(certs[..i + 1], CaSections(certs, i + 1), accepts, c)
  {
    hide AllValid;
    hide AllStored;
    hide CaSections;
    hide CertsFit;
    hide CertSections;
    hide Readable;
    hide LoadAll;
    CasFitEarlier(certs, 1, i);
    SectOfFirst(certs);
    SectOfNext(certs, i);
    CaSectionsNext(certs, i);
    var l, first := certs[i], certs[0];
    assert |certs[..i]| == i;
    AnotherCa(certs, i, CertSections(first.serials, first.keyIds), SectAfter(certs, i),
              CertSections(l.serials, l.keyIds), SectAfter(certs, i + 1), CaSections(certs, i), accepts, c);
  }

  lemma CaSectionsNext(certs: seq<CertList>, i: nat)
    requires i < |certs| && AllStored(certs) && CasFit(certs, i) && CasFit(certs, i + 1)
    ensures CaSections(certs, i + 1) == CaSections(certs, i) + [Section(CERTIFICATES, SectAfter(certs, i + 1))]
  {
    hide CertsFit;
    hide SectAfter;
    hide AllStored;
  }

  lemma {:induction false} SectOfFirst(certs: seq<CertList>)
    requires 0 < |certs| && AllStored(certs) && CasFit(certs, 1)
    ensures var l := certs[0];
            && Stored(l.serials) && StringFits(l.ca) && SerialsFit(l.serials)
            && (Stop(l.serials, 0) == |l.serials| ==> AllStrings(l.keyIds))
            && Sections(CertSections(l.serials, l.keyIds))
            && SectAfter(certs, 1) == Header(l.ca) + Encode(CertSections(l.serials, l.keyIds))
  {
    hide CertSections;
    hide SerialsFit;
    var l := certs[0];
    SectAtFirst(certs);
    SizeIsLength(CertSections(l.serials, l.keyIds));
    assert [] + Header(l.ca) == Header(l.ca);
  }

  lemma SectOfNext(certs: seq<CertList>, i: nat)
    requires i < |certs| && AllStored(certs) && CasFit(certs, i) && CasFit(certs, i + 1)
    ensures var l := certs[i];
            && Stored(l.serials) && |l.ca| < SSHBUF_SIZE_MAX
            && (Stop(l.serials, 0) == |l.serials| ==> AllStrings(l.keyIds))
            && Output(SectAfter(certs, i) + Header(l.ca), SectAfter(certs, i + 1), CertSections(l.serials, l.keyIds))
  {
    hide CertSections;
    hide SerialsFit;
    SizeIsLength(CertSections(certs[i].serials, certs[i].keyIds));
  }

  lemma {:induction false} ReadBlobs(kind: Byte, blobs: seq<Bytes>, c: Contents)
    requires kind == EXPLICIT_KEY || kind == FINGERPRINT_SHA1
    requires AllStrings(blobs)
    requires kind == FINGERPRINT_SHA1 ==> forall i | 0 <= i < |blobs| :: |blobs[i]| == 20
    ensures LoadBlobs(kind, StringsBody(blobs, |blobs|), c)
            == Ok(if kind == EXPLICIT_KEY then c.(keys := c.keys + Elements(blobs))
                  else c.(sha1s := c.sha1s + Elements(blobs)))
  {
    LoadBlobList(kind, blobs, |blobs|, [], c);
    assert StringsBody(blobs, |blobs|) + [] == StringsBody(blobs, |blobs|);
    assert blobs[..|blobs|] == blobs;
  }

  /** The section of explicitly revoked keys or of key hashes is read back as the set of them. */
  lemma {:induction false} BlobSectionRead(kind: Byte, blobs: seq<Bytes>, ss: seq<Section>, accepts: Bytes -> bool,
                                           c: Contents)
    requires kind == EXPLICIT_KEY || kind == FINGERPRINT_SHA1
    requires AllStrings(blobs)
    requires kind == FINGERPRINT_SHA1 ==> forall i | 0 <= i < |blobs| :: |blobs[i]| == 20
    ensures LoadAll(ss + StringSection(kind, blobs), accepts, c)
            == match LoadAll(ss, accepts, c)
               case Err(e) => Err(e)
               case Ok(c') => Ok(if kind == EXPLICIT_KEY then c'.(keys := c'.keys + Elements(blobs))
                                 else c'.(sha1s := c'.sha1s + Elements(blobs)))
  {
    if blobs != [] {
      var last := Section(kind, StringsBody(blobs, |blobs|));
      assert (ss + [last])[..|ss|] == ss;
      if LoadAll(ss, accepts, c).Ok? { ReadBlobs(kind, blobs, LoadAll(ss, accepts, c).value); }
    } else {
      assert ss + StringSection(kind, blobs) == ss;
      assert Elements(blobs) == {};
      if LoadAll(ss, accepts, c).Ok? {
        var c' := LoadAll(ss, accepts, c).value;
        assert c'.keys + {} == c'.keys && c'.sha1s + {} == c'.sha1s;
      }
    }
  }

  // ----- Whole lists

  ghost function BlobSections(krl: Krl): seq<Section>
    requires AllStored(krl.certs) && CasFit(krl.certs, |krl.certs|) && AllStrings(krl.keys) && AllStrings(krl.sha1s)
  {
    CaSections(krl.certs, |krl.certs|) + StringSection(EXPLICIT_KEY, krl.keys)
      + StringSection(FINGERPRINT_SHA1, krl.sha1s)
  }

  function HeaderOf(krl: Krl): Bytes
    requires StringFits(krl.comment)
  {
    MAGIC + Preamble(krl.version, krl.date, krl.flags) + StringBytes(krl.comment)
  }

  /** When ssh_krl_to_blob succeeds: everything fits its buffer, and every CA can be generated. */
  ghost predicate BlobFits(krl: Krl)
    requires AllStored(krl.certs)
  {
    && StringFits(krl.comment) && CasFit(krl.certs, |krl.certs|) && AllStrings(krl.keys) && AllStrings(krl.sha1s)
    && |HeaderOf(krl)| + Size(BlobSections(krl)) <= SSHBUF_SIZE_MAX
  }

  ghost function BlobOf(krl: Krl): Bytes
    requires AllStored(krl.certs) && BlobFits(krl)
  {
    SizeIsLength(BlobSections(krl)); HeaderOf(krl) + Encode(BlobSections(krl))
  }

  function Dated(krl: Krl, now: U64): Krl { krl.(date := if krl.date == 0 then now else krl.date) }

  /** ssh_krl_to_blob without signing keys. */
  method ToBlob(krl0: Krl, now: U64) returns (r: Result<Bytes>)
    requires AllStored(krl0.certs)
    ensures r.Ok? <==> BlobFits(Dated(krl0, now))
    ensures r.Ok? ==> r.value == BlobOf(Dated(krl0, now))
  {
    hide CasFit;
    hide CaSections;
    hide Preamble;
    hide StringBytes;
    hide StringSection;
    hide BlobFits;
    hide Size;
    hide AllStored;
    hide AllStrings;
    hide Encode;
    var krl := Dated(krl0, now);
    BlobFitsIff(krl);
    var buf := MAGIC + Preamble(krl.version, krl.date, krl.flags);
    if !StringFits(krl.comment) { return Err(NoBufferSpace); }
    r := Put(buf, StringBytes(krl.comment));
    if r.Err? { return; }
    ghost var header := r.value;
    r := WriteCerts(r.value, krl.certs);
    if r.Err? { return; }
    ghost var ss := CaSections(krl.certs, |krl.certs|);
    OutputSize(header, r.value, ss);
    r := WriteStrings(header, r.value, EXPLICIT_KEY, krl.keys, ss);
    if r.Err? { return; }
    SizeStrings(ss, EXPLICIT_KEY, krl.keys);
    r := WriteStrings(header, r.value, FINGERPRINT_SHA1, krl.sha1s, ss + StringSection(EXPLICIT_KEY, krl.keys));
  }

  /** Step by step: the header, the certificates, the keys and the hashes. */
  lemma BlobFitsIff(krl: Krl)
    requires AllStored(krl.certs)
    ensures BlobFits(krl) <==>
            && StringFits(krl.comment) && |HeaderOf(krl)| <= SSHBUF_SIZE_MAX
            && CasFit(krl.certs, |krl.certs|)
            && |HeaderOf(krl)| + Size(CaSections(krl.certs, |krl.certs|)) <= SSHBUF_SIZE_MAX
            && AllStrings(krl.keys)
            && |HeaderOf(krl)| + Size(CaSections(krl.certs, |krl.certs|))
               + Size(StringSection(EXPLICIT_KEY, krl.keys)) <= SSHBUF_SIZE_MAX
            && AllStrings(krl.sha1s)
            && |HeaderOf(krl)| + Size(CaSections(krl.certs, |krl.certs|)) + Size(StringSection(EXPLICIT_KEY, krl.keys))
               + Size(StringSection(FINGERPRINT_SHA1, krl.sha1s)) <= SSHBUF_SIZE_MAX
  {
    hide CasFit;
    hide StringSection;
    hide HeaderOf;
    hide CaSections;
    hide Size;
    if StringFits(krl.comment) && CasFit(krl.certs, |krl.certs|) && AllStrings(krl.keys) && AllStrings(krl.sha1s) {
      BlobSize(krl);
    }
  }

  lemma BlobSize(krl: Krl)
    requires AllStored(krl.certs) && CasFit(krl.certs, |krl.certs|) && AllStrings(krl.keys) && AllStrings(krl.sha1s)
    ensures var ss := CaSections(krl.certs, |krl.certs|);
            Size(BlobSections(krl)) == Size(ss) + Size(StringSection(EXPLICIT_KEY, krl.keys))
              + Size(StringSection(FINGERPRINT_SHA1, krl.sha1s))
  {
    hide CasFit;
    hide StringSection;
    hide CaSections;
    var ss := CaSections(krl.certs, |krl.certs|);
    SizeStrings(ss, EXPLICIT_KEY, krl.keys);
    SizeStrings(ss + StringSection(EXPLICIT_KEY, krl.keys), FINGERPRINT_SHA1, krl.sha1s);
  }

  /** The section of explicitly revoked keys or of key hashes. */
  method WriteStrings(ghost header: Bytes, buf: Bytes, kind: Byte, blobs: seq<Bytes>, ghost ss: seq<Section>)
    returns (r: Result<Bytes>)
    requires kind == EXPLICIT_KEY || kind == FINGERPRINT_SHA1
    requires Output(header, buf, ss) && |buf| == |header| + Size(ss) <= SSHBUF_SIZE_MAX
    ensures r.Ok? <==> AllStrings(blobs) && |header| + Size(ss) + Size(StringSection(kind, blobs)) <= SSHBUF_SIZE_MAX
    ensures r.Ok? ==> Output(header, r.value, ss + StringSection(kind, blobs))
                      && |r.value| == |header| + Size(ss + StringSection(kind, blobs))
  {
    r := GenerateStrings(buf, kind, blobs);
    if r.Ok? {
      EncodeStrings(header, buf, r.value, ss, kind, blobs);
      SizeStrings(ss, kind, blobs);
      OutputSize(header, r.value, ss + StringSection(kind, blobs));
    }
  }

  // ----- Reading back what was written

  lemma BlobUnsigned(krl: Krl)
    requires AllStored(krl.certs) && BlobFits(krl)
    ensures Unsigned(BlobSections(krl))
  {
    hide CasFit;
    hide CaSections;
    CaSectionsUnsigned(krl.certs, |krl.certs|);
    SizeIsLength(BlobSections(krl));
  }

  lemma BlobRead(krl: Krl, accepts: Bytes -> bool)
    requires Valid(krl, accepts) && AllStored(krl.certs) && BlobFits(krl)
    ensures FromBlob(BlobOf(krl), accepts)
            == LoadAll(BlobSections(krl), accepts,
                       Contents(krl.version, krl.date, krl.flags, krl.comment, {}, {}, map[]))
  {
    hide CasFit;
    hide BlobSections;
    hide FromBlob;
    hide LoadAll;
    hide AllValid;
    hide AllStored;
    hide Preamble;
    hide StringBytes;
    BlobUnsigned(krl);
    SizeIsLength(BlobSections(krl));
    BlobParts(MAGIC, Preamble(krl.version, krl.date, krl.flags), StringBytes(krl.comment), Encode(BlobSections(krl)));
    ReadBlob(krl.version, krl.date, krl.flags, krl.comment, BlobSections(krl), accepts);
  }

  lemma BlobParts(a: Bytes, b: Bytes, c: Bytes, d: Bytes)
    ensures a + b + c + d == a + (b + (c + d))
  {
  }

  /** A list that is written is read back as itself exactly when it has at most one CA, whose
      serials are representable.  Lists with more CAs, and serials that are written to the end
      without being representable, cannot be read at all. */
  lemma BlobRoundTrip(krl: Krl, accepts: Bytes -> bool)
    requires Valid(krl, accepts) && AllStored(krl.certs) && BlobFits(krl)
    ensures FromBlob(BlobOf(krl), accepts) == Ok(Meaning(krl)) <==> Readable(krl.certs, accepts)
    ensures |krl.certs| > 1 ==> FromBlob(BlobOf(krl), accepts).Err?
    ensures |krl.certs| == 1 && Refused(krl.certs[0].serials) ==> FromBlob(BlobOf(krl), accepts).Err?
    ensures FromBlob(BlobOf(krl), accepts).Ok? ==>
              FromBlob(BlobOf(krl), accepts).value == Meaning(krl).(certs := FromBlob(BlobOf(krl), accepts).value.certs)
    ensures |krl.certs| == 1 && !Readable(krl.certs, accepts) && FromBlob(BlobOf(krl), accepts).Ok? ==>
              Cut(krl.certs[0], FromBlob(BlobOf(krl), accepts).value.certs)
  {
    hide CasFit;
    hide CaSections;
    hide FromBlob;
    hide BlobOf;
    hide LoadAll;
    hide StringSection;
    hide Readable;
    hide Refused;
    hide AllStored;
    hide Elements;
    var c := Contents(krl.version, krl.date, krl.flags, krl.comment, {}, {}, map[]);
    var ss := CaSections(krl.certs, |krl.certs|);
    assert krl.certs[..|krl.certs|] == krl.certs;
    BlobRead(krl, accepts);
    CaSectionsRead(krl.certs, |krl.certs|, accepts, c);
    BlobSectionRead(EXPLICIT_KEY, krl.keys, ss, accepts, c);
    BlobSectionRead(FINGERPRINT_SHA1, krl.sha1s, ss + StringSection(EXPLICIT_KEY, krl.keys), accepts, c);
    if |krl.certs| == 1 { assert ValidCerts(krl.certs[0], accepts); }
    Conclude(krl, ss, accepts, c, FromBlob(BlobOf(krl), accepts));
  }

  lemma {:induction false} Conclude(krl: Krl, ss0: seq<Section>, accepts: Bytes -> bool, c: Contents,
                                    got: Result<Contents>)
    requires AllValid(krl.certs, accepts) && CertsWritten(krl.certs, ss0, accepts, c)
    requires c == Contents(krl.version, krl.date, krl.flags, krl.comment, {}, {}, map[])
    requires LoadAll(ss0, accepts, c).Err? ==> got.Err?
    requires LoadAll(ss0, accepts, c).Ok? ==>
               var c' := LoadAll(ss0, accepts, c).value;
               got == Ok(c'.(keys := c'.keys + Elements(krl.keys)).(sha1s := c'.sha1s + Elements(krl.sha1s)))
    ensures got == Ok(Meaning(krl)) <==> Readable(krl.certs, accepts)
    ensures got.Ok? ==> got.value == Meaning(krl).(certs := got.value.certs)
    ensures |krl.certs| == 1 && !Readable(krl.certs, accepts) && got.Ok? ==> Cut(krl.certs[0], got.value.certs)
  {
    assert {} + Elements(krl.keys) == Elements(krl.keys) && {} + Elements(krl.sha1s) == Elements(krl.sha1s);
  }

  // ----- Lists that are written but not read

  /** A list with nothing but the serials of some CAs. */
  function Plain(certs: seq<CertList>): Krl { Krl(0, 1, 0, [], [], [], certs) }

  function OneList(ca: Bytes, s: seq<Range>): seq<CertList> { [CertList(ca, s, [])] }

  lemma HeaderLength(ca: Bytes)
    requires StringFits(ca)
    ensures |Header(ca)| == |ca| + 8
  {
  }

  lemma PlainHeaderLength(certs: seq<CertList>)
    ensures |HeaderOf(Plain(certs))| == 44
  {
  }

  lemma {:induction false} PlainSections(certs: seq<CertList>)
    requires AllStored(certs) && CasFit(certs, |certs|)
    ensures BlobSections(Plain(certs)) == CaSections(certs, |certs|)
  {
    hide CasFit;
    hide CaSections;
    var ss := CaSections(certs, |certs|);
    assert ss + [] + [] == ss;
  }

  /** Serials that fit are written for a CA whose blob is not too long. */
  lemma OneListFits(ca: Bytes, s: seq<Range>)
    requires Stored(s) && SerialsFit(s) && |ca| + Size(SerialSections(s)) <= SSHBUF_SIZE_MAX - 100
    ensures AllStored(OneList(ca, s)) && BlobFits(Plain(OneList(ca, s)))
  {
    hide SerialsFit;
    hide Stored;
    hide SerialSections;
    hide Header;
    var certs := OneList(ca, s);
    HeaderLength(ca);
    SectAtFirst(certs);
    assert CertSections(s, []) == SerialSections(s) by {
      assert SerialSections(s) + [] == SerialSections(s);
    }
    assert CertsFit([], ca, s, []);
    SizeIsLength(SerialSections(s));
    assert CasFit(certs, 1);
    SizeSnoc([], Section(CERTIFICATES, SectAfter(certs, 1)));
    CaSectionsNext(certs, 0);
    assert CaSections(certs, 0) == [];
    PlainSections(certs);
    PlainHeaderLength(certs);
  }

  /** Writing succeeds and reading does not, for all serials that fit without being representable
      and are written to the end. */
  lemma RefusedAreLost(ca: Bytes, accepts: Bytes -> bool, s: seq<Range>)
    requires accepts(ca) && Stored(s) && SerialsFit(s) && Refused(s) && s != []
    requires |ca| + Size(SerialSections(s)) <= SSHBUF_SIZE_MAX - 100
    ensures var krl := Plain(OneList(ca, s));
            AllStored(krl.certs) && BlobFits(krl) && FromBlob(BlobOf(krl), accepts).Err?
  {
    hide SerialsFit;
    hide Stored;
    hide BlobFits;
    hide FromBlob;
    hide BlobOf;
    hide Refused;
    OneListFits(ca, s);
    var krl := Plain(OneList(ca, s));
    assert Valid(krl, accepts);
    BlobRoundTrip(krl, accepts);
  }

  /** Such are two range sections in a row, and a bitmap of exactly 8192 bits. */
  lemma LostSerials(ca: Bytes, accepts: Bytes -> bool, s: seq<Range>)
    requires accepts(ca) && |ca| <= 0x10_0000 && (s == TWO_RANGES || s == WideBitmap())
    ensures var krl := Plain(OneList(ca, s));
            AllStored(krl.certs) && BlobFits(krl) && FromBlob(BlobOf(krl), accepts).Err?
  {
    hide WideBitmap;
    hide SerialsFit;
    hide Stored;
    hide BlobFits;
    hide FromBlob;
    hide BlobOf;
    hide Representable;
    hide AllStored;
    if s == TWO_RANGES { TwoRangesAreLost(); } else { WideBitmapIsLost(); WideLast(); }
    RefusedAreLost(ca, accepts, s);
  }

  /** Serials for which the writer gives up before it has written a section are lost in silence:
      the list is written and read, and says nothing of them. */
  lemma UnwrittenAreLost(ca: Bytes, accepts: Bytes -> bool, s: seq<Range>)
    requires accepts(ca) && |ca| <= 0x10_0000 && Stored(s) && SerialsFit(s) && s != [] && SerialSections(s) == []
    ensures var krl := Plain(OneList(ca, s));
            AllStored(krl.certs) && BlobFits(krl) && FromBlob(BlobOf(krl), accepts) == Ok(Meaning(Plain([])))
  {
    hide SerialsFit;
    hide Stored;
    hide SerialSections;
    hide FromBlob;
    hide BlobOf;
    hide BlobFits;
    hide Header;
    hide Stop;
    var certs := OneList(ca, s);
    var krl := Plain(certs);
    OneListFits(ca, s);
    assert Valid(krl, accepts);
    BlobRead(krl, accepts);
    OnlyHeader(ca, s);
    HeaderReadsEmpty(ca, accepts);
  }

  lemma OnlyHeader(ca: Bytes, s: seq<Range>)
    requires Stored(s) && SerialSections(s) == [] && AllStored(OneList(ca, s)) && BlobFits(Plain(OneList(ca, s)))
    ensures StringFits(ca) && BlobSections(Plain(OneList(ca, s))) == [Section(CERTIFICATES, Header(ca))]
  {
    hide Stored;
    hide SerialsFit;
    hide SerialSections;
    hide SectAfter;
    hide Header;
    hide CertsFit;
    var certs := OneList(ca, s);
    PlainSections(certs);
    SectOfFirst(certs);
    CasFitEarlier(certs, 0, 1);
    CaSectionsNext(certs, 0);
    assert CaSections(certs, 0) == [];
    assert CertSections(s, []) == [] by { assert SerialSections(s) + [] == []; }
    assert Header(ca) + Encode([]) == Header(ca);
  }

  lemma HeaderReadsEmpty(ca: Bytes, accepts: Bytes -> bool)
    requires StringFits(ca) && accepts(ca)
    ensures LoadAll([Section(CERTIFICATES, Header(ca))], accepts, Contents(0, 1, 0, [], {}, {}, map[]))
            == Ok(Meaning(Plain([])))
  {
    hide Header;
    hide ParseCerts;
    var ss := [Section(CERTIFICATES, Header(ca))];
    var c := Contents(0, 1, 0, [], {}, {}, map[]);
    ParseGenerated(ca, [], [], accepts, map[]);
    assert Header(ca) + (Encode([]) + []) == Header(ca);
    assert ss[..0] == [];
    assert LoadAll(ss[..0], accepts, c) == Ok(c);
    assert Elements([]) == {};
  }

  /** So it is for a list with two CAs, one serial each. */
  lemma LostCa(ca1: Bytes, ca2: Bytes, x: U64, y: U64, accepts: Bytes -> bool)
    requires accepts(ca1) && accepts(ca2) && |ca1| <= 0x10_0000 && |ca2| <= 0x10_0000 && x > 0 && y > 0
    ensures var krl := Plain(OneList(ca1, [Range(x, x)]) + OneList(ca2, [Range(y, y)]));
            AllStored(krl.certs) && BlobFits(krl) && FromBlob(BlobOf(krl), accepts).Err?
  {
    hide SerialsFit;
    hide Stored;
    hide BlobFits;
    hide FromBlob;
    hide BlobOf;
    OneSerial(x);
    OneSerial(y);
    var certs := OneList(ca1, [Range(x, x)]) + OneList(ca2, [Range(y, y)]);
    TwoListsFit(certs);
    assert Valid(Plain(certs), accepts);
    BlobRoundTrip(Plain(certs), accepts);
  }

  ghost predicate SmallList(l: CertList)
  {
    && |l.ca| <= 0x10_0000 && l.keyIds == [] && Stored(l.serials) && SerialsFit(l.serials)
    && Size(SerialSections(l.serials)) <= 2000
  }

  lemma SmallListFits(sect: Bytes, l: CertList)
    requires SmallList(l) && |sect| <= 0x20_0000
    ensures CertsFit(sect, l.ca, l.serials, l.keyIds)
    ensures |Header(l.ca)| <= 0x10_0008 && Size(CertSections(l.serials, l.keyIds)) <= 2000
  {
    hide SerialsFit;
    hide Stored;
    hide SerialSections;
    HeaderLength(l.ca);
    assert SerialSections(l.serials) + [] == SerialSections(l.serials);
  }

  lemma SmallSectGrows(certs: seq<CertList>, i: nat)
    requires i < |certs| && AllStored(certs) && SmallList(certs[i]) && CasFit(certs, i)
             && |SectAfter(certs, i)| <= 0x20_0000
    ensures CasFit(certs, i + 1) && |SectAfter(certs, i + 1)| <= |SectAfter(certs, i)| + 0x10_0000 + 3000
  {
    hide SerialsFit;
    hide CertSections;
    SmallListFits(SectAfter(certs, i), certs[i]);
    SizeIsLength(CertSections(certs[i].serials, certs[i].keyIds));
  }

  lemma TwoListsFit(certs: seq<CertList>)
    requires |certs| == 2 && AllStored(certs) && SmallList(certs[0]) && SmallList(certs[1])
    ensures BlobFits(Plain(certs))
  {
    hide SerialsFit;
    hide SmallList;
    hide SectAfter;
    hide CertsFit;
    hide HeaderOf;
    SectAtFirst(certs);
    SmallSectGrows(certs, 0);
    SmallSectGrows(certs, 1);
    CaSectionsNext(certs, 0);
    CaSectionsNext(certs, 1);
    assert CaSections(certs, 0) == [];
    SizeSnoc([], Section(CERTIFICATES, SectAfter(certs, 1)));
    SizeSnoc(CaSections(certs, 1), Section(CERTIFICATES, SectAfter(certs, 2)));
    PlainSections(certs);
    PlainHeaderLength(certs);
  }
}
