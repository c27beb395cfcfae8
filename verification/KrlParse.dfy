/** Reading the certificate section of a key revocation list: parse_revoked_certs of
    ssh/krl.c and the cost model choose_next_state that the writer follows. */
module KrlParse {
  import opened Wire
  import opened SerialTree

  const LIST := 0x20
  const RANGE := 0x21
  const BITMAP := 0x22
  const KEY_ID := 0x23

  /** What is revoked under one CA key. */
  datatype Revoked = Revoked(serials: seq<Range>, keyIds: set<Bytes>)

  const NOTHING := Revoked([], {})

  // ----- The parser

  /** ssh_krl_revoke_cert_by_serial_range. */
  function RevokeSerials(rc: Revoked, lo: U64, hi: U64): Result<Revoked>
  {
    if lo > hi || lo == 0 then Err(InvalidArgument)
    else Ok(rc.(serials := InsertRange(rc.serials, lo, hi)))
  }

  function ParseList(sub: Bytes, rc: Revoked): Result<Revoked>
    decreases |sub|
  {
    if sub == [] then Ok(rc)
    else
      var serial :- GetU64(sub);
      var rc' :- RevokeSerials(rc, serial.value, serial.value);
      ParseList(serial.rest, rc')
  }

  /** Bits i.. of a bitmap that starts at serial `lo`. */
  function ParseBits(lo: U64, bitmap: nat, i: nat, rc: Revoked): Result<Revoked>
    decreases NumBits(bitmap) - i
  {
    if i >= NumBits(bitmap) then Ok(rc)
    else if i > 0 && (lo + i) % U64_LIMIT == 0 then Err(InvalidFormat)
    else if !IsBitSet(bitmap, i) then ParseBits(lo, bitmap, i + 1, rc)
    else
      var rc' :- RevokeSerials(rc, (lo + i) % U64_LIMIT, (lo + i) % U64_LIMIT);
      ParseBits(lo, bitmap, i + 1, rc')
  }

  function ParseKeyIds(sub: Bytes, rc: Revoked): Result<Revoked>
    decreases |sub|
  {
    if sub == [] then Ok(rc)
    else
      var id :- GetCString(sub);
      ParseKeyIds(id.rest, rc.(keyIds := rc.keyIds + {id.value}))
  }

  function NothingLeft(rest: Bytes, rc: Revoked): Result<Revoked>
  {
    if rest != [] then Err(InvalidFormat) else Ok(rc)
  }

  function ParseRange(sub: Bytes, rc: Revoked): Result<Revoked>
  {
    var lo :- GetU64(sub);
    var hi :- GetU64(lo.rest);
    var rc' :- RevokeSerials(rc, lo.value, hi.value);
    NothingLeft(hi.rest, rc')
  }

  function ParseBitmap(sub: Bytes, rc: Revoked): Result<Revoked>
  {
    var lo :- GetU64(sub);
    var bitmap :- GetBignum(lo.rest);
    var rc' :- ParseBits(lo.value, bitmap.value, 0, rc);
    NothingLeft(bitmap.rest, rc')
  }

  function ParseSubsection(kind: Byte, sub: Bytes, rc: Revoked): Result<Revoked>
  {
    if kind == LIST then ParseList(sub, rc)
    else if kind == RANGE then ParseRange(sub, rc)
    else if kind == BITMAP then ParseBitmap(sub, rc)
    else if kind == KEY_ID then ParseKeyIds(sub, rc)
    else Err(InvalidFormat)
  }

  function ParseSections(buf: Bytes, rc: Revoked): Result<Revoked>
    decreases |buf|
  {
    if buf == [] then Ok(rc)
    else
      var kind :- GetU8(buf);
      var sub :- GetString(kind.rest);
      var rc' :- ParseSubsection(kind.value, sub.value, rc);
      ParseSections(sub.rest, rc')
  }

  /** What has been revoked so far under each CA key; revoked_certs_for_ca_key adds a CA
      only with its first revocation. */
  type Certs = map<Bytes, Revoked>

  function Lookup(certs: Certs, ca: Bytes): Revoked { if ca in certs then certs[ca] else NOTHING }

  function Update(certs: Certs, ca: Bytes, rc: Revoked): Certs { if rc == NOTHING then certs else certs[ca := rc] }

  /** A certificate section.  `accepts` says which blobs sshkey_from_blob takes for a key. */
  function ParseCerts(buf: Bytes, accepts: Bytes -> bool, certs: Certs): Result<Certs>
  {
    var ca :- GetString(buf);
    var reserved :- GetString(ca.rest);
    if !accepts(ca.value) then Err(InvalidFormat)
    else
      var rc :- ParseSections(reserved.rest, Lookup(certs, ca.value));
      Ok(Update(certs, ca.value, rc))
  }

  // ----- The loops of the parser

  method ParseListLoop(sub0: Bytes, rc0: Revoked) returns (r: Result<Revoked>)
    ensures r == ParseList(sub0, rc0)
  {
    var sub, rc := sub0, rc0;
    while |sub| > 0
      invariant ParseList(sub, rc) == ParseList(sub0, rc0)
      decreases |sub|
    {
      var serial :- GetU64(sub);
      rc :- RevokeSerials(rc, serial.value, serial.value);
      sub := serial.rest;
    }
    return Ok(rc);
  }

  method ParseBitsLoop(lo: U64, bitmap: nat, rc0: Revoked) returns (r: Result<Revoked>)
    ensures r == ParseBits(lo, bitmap, 0, rc0)
  {
    var rc := rc0;
    var nbits := NumBits(bitmap);
    for serial := 0 to nbits
      invariant ParseBits(lo, bitmap, serial, rc) == ParseBits(lo, bitmap, 0, rc0)
    {
      if serial > 0 && (lo + serial) % U64_LIMIT == 0 { return Err(InvalidFormat); }
      if IsBitSet(bitmap, serial) {
        rc :- RevokeSerials(rc, (lo + serial) % U64_LIMIT, (lo + serial) % U64_LIMIT);
      }
    }
    return Ok(rc);
  }

  method ParseKeyIdsLoop(sub0: Bytes, rc0: Revoked) returns (r: Result<Revoked>)
    ensures r == ParseKeyIds(sub0, rc0)
  {
    var sub, rc := sub0, rc0;
    while |sub| > 0
      invariant ParseKeyIds(sub, rc) == ParseKeyIds(sub0, rc0)
      decreases |sub|
    {
      var id :- GetCString(sub);
      rc := rc.(keyIds := rc.keyIds + {id.value});
      sub := id.rest;
    }
    return Ok(rc);
  }

  /** parse_revoked_certs. */
  method ParseRevokedCerts(buf0: Bytes, accepts: Bytes -> bool, certs: Certs) returns (r: Result<Certs>)
    ensures r == ParseCerts(buf0, accepts, certs)
  {
    var ca :- GetString(buf0);
    var reserved :- GetString(ca.rest);
    if !accepts(ca.value) { return Err(InvalidFormat); }
    var buf, rc := reserved.rest, Lookup(certs, ca.value);
    while |buf| > 0
      invariant ParseSections(buf, rc) == ParseSections(reserved.rest, Lookup(certs, ca.value))
      decreases |buf|
    {
      var kind := Read(buf[0], buf[1..]);
      var sub :- GetString(kind.rest);
      var left: Bytes := [];
      if kind.value == LIST {
        var x := ParseListLoop(sub.value, rc);
        rc :- x;
      } else if kind.value == RANGE {
        var lo :- GetU64(sub.value);
        var hi :- GetU64(lo.rest);
        rc :- RevokeSerials(rc, lo.value, hi.value);
        left := hi.rest;
      } else if kind.value == BITMAP {
        var lo :- GetU64(sub.value);
        var bitmap :- GetBignum(lo.rest);
        var x := ParseBitsLoop(lo.value, bitmap.value, rc);
        rc :- x;
        left := bitmap.rest;
      } else if kind.value == KEY_ID {
        var x := ParseKeyIdsLoop(sub.value, rc);
        rc :- x;
      } else {
        return Err(InvalidFormat);
      }
      if |left| > 0 { return Err(InvalidFormat); }
      buf := sub.rest;
    }
    return Ok(Update(certs, ca.value, rc));
  }

  // ----- Sections one after another

  datatype Section = Section(kind: Byte, body: Bytes)

  ghost predicate Sections(ss: seq<Section>) { forall i | 0 <= i < |ss| :: StringFits(ss[i].body) }

  function SectionBytes(s: Section): Bytes
    requires StringFits(s.body)
  {
    [s.kind] + StringBytes(s.body)
  }

  ghost function Encode(ss: seq<Section>): Bytes
    requires Sections(ss)
  {
    if ss == [] then [] else Encode(ss[..|ss| - 1]) + SectionBytes(ss[|ss| - 1])
  }

  ghost function ApplyAll(ss: seq<Section>, rc: Revoked): Result<Revoked>
  {
    if ss == [] then Ok(rc)
    else
      var rc' :- ApplyAll(ss[..|ss| - 1], rc);
      ParseSubsection(ss[|ss| - 1].kind, ss[|ss| - 1].body, rc')
  }

  lemma {:induction false} ParseOneSection(s: Section, rest: Bytes, rc: Revoked)
    requires StringFits(s.body)
    ensures ParseSections(SectionBytes(s) + rest, rc)
            == match ParseSubsection(s.kind, s.body, rc)
               case Ok(rc') => ParseSections(rest, rc')
               case Err(e) => Err(e)
  {
    var buf := SectionBytes(s) + rest;
    assert buf[1..] == StringBytes(s.body) + rest;
    StringRoundTrip(s.body, rest);
  }

  /** Parsing an encoded list of sections applies them in order. */
  lemma {:induction false} ParseEncoded(ss: seq<Section>, rest: Bytes, rc: Revoked)
    requires Sections(ss)
    ensures ParseSections(Encode(ss) + rest, rc)
            == match ApplyAll(ss, rc)
               case Ok(rc') => ParseSections(rest, rc')
               case Err(e) => Err(e)
  {
    if ss == [] {
      assert Encode(ss) + rest == rest;
    } else {
      var init, last := ss[..|ss| - 1], ss[|ss| - 1];
      assert Encode(ss) + rest == Encode(init) + (SectionBytes(last) + rest);
      ParseEncoded(init, SectionBytes(last) + rest, rc);
      if ApplyAll(init, rc).Ok? { ParseOneSection(last, rest, ApplyAll(init, rc).value); }
    }
  }

  // ----- What each kind of section denotes

  lemma Assoc(a: Bytes, b: Bytes, c: Bytes)
    ensures (a + b) + c == a + (b + c)
  {
  }

  /** Appending the next range of a canonical list. */
  lemma AppendRange(s: seq<Range>, k: nat)
    requires Canonical(s) && k < |s|
    ensures InsertRange(s[..k], s[k].lo, s[k].hi) == s[..k + 1]
  {
    InsertRangeSpec(s[..k], s[k].lo, s[k].hi);
    var r := InsertRange(s[..k], s[k].lo, s[k].hi);
    assert s[..k + 1] == s[..k] + ([s[k]] + []);
    forall x: int ensures Covers(r, x) <==> Covers(s[..k + 1], x) {
      CoversConcat(s[..k], [s[k]] + [], x);
      CoversCons(s[k], [], x);
    }
    CanonicalUnique(r, s[..k + 1]);
  }

  /** The next serial after an inserted run extends the run. */
  lemma ExtendRun(s: seq<Range>, lo: U64, hi: U64)
    requires Canonical(s) && lo < hi
    ensures InsertRange(InsertRange(s, lo, hi - 1), hi, hi) == InsertRange(s, lo, hi)
  {
    InsertRangeSpec(s, lo, hi - 1);
    InsertRangeSpec(InsertRange(s, lo, hi - 1), hi, hi);
    InsertRangeSpec(s, lo, hi);
    CanonicalUnique(InsertRange(InsertRange(s, lo, hi - 1), hi, hi), InsertRange(s, lo, hi));
  }

  /** The serials lo, lo+1, ... as the list section writes them. */
  function RunBytes(lo: U64, n: nat): Bytes
    requires lo + n <= U64_LIMIT
  {
    if n == 0 then [] else RunBytes(lo, n - 1) + U64Bytes(lo + n - 1)
  }

  lemma {:induction false} ParseOneSerial(x: U64, rest: Bytes, rc: Revoked)
    requires x > 0
    ensures ParseList(U64Bytes(x) + rest, rc) == ParseList(rest, rc.(serials := InsertRange(rc.serials, x, x)))
  {
    U64RoundTrip(x, rest);
  }

  lemma {:induction false} ParseRun(lo: U64, n: nat, rest: Bytes, rc: Revoked)
    requires lo > 0 && n > 0 && lo + n <= U64_LIMIT && Canonical(rc.serials)
    ensures ParseList(RunBytes(lo, n) + rest, rc)
            == ParseList(rest, rc.(serials := InsertRange(rc.serials, lo, lo + n - 1)))
    decreases n
  {
    var x: U64 := lo + n - 1;
    if n == 1 {
      assert RunBytes(lo, 1) == U64Bytes(lo);
      ParseOneSerial(lo, rest, rc);
    } else {
      Assoc(RunBytes(lo, n - 1), U64Bytes(x), rest);
      ParseRun(lo, n - 1, U64Bytes(x) + rest, rc);
      ParseRunStep(lo, x, rest, rc);
    }
  }

  lemma {:induction false} ParseRunStep(lo: U64, x: U64, rest: Bytes, rc: Revoked)
    requires 0 < lo < x && Canonical(rc.serials)
    ensures ParseList(U64Bytes(x) + rest, rc.(serials := InsertRange(rc.serials, lo, x - 1)))
            == ParseList(rest, rc.(serials := InsertRange(rc.serials, lo, x)))
  {
    ParseOneSerial(x, rest, rc.(serials := InsertRange(rc.serials, lo, x - 1)));
    ExtendRun(rc.serials, lo, x);
  }

  /** The body of a list section that holds ranges k..i. */
  ghost function ListBody(s: seq<Range>, k: nat, i: nat): Bytes
    requires i <= |s| && forall j | 0 <= j < |s| :: s[j].lo <= s[j].hi
  {
    if i <= k then [] else ListBody(s, k, i - 1) + RunOf(s[i - 1])
  }

  function RunOf(r: Range): Bytes
    requires r.lo <= r.hi
  {
    RunBytes(r.lo, r.hi - r.lo + 1)
  }

  lemma {:induction false} ParseListRun(s: seq<Range>, i: nat, rest: Bytes, ids: set<Bytes>)
    requires Canonical(s) && i < |s| && s[i].lo > 0
    ensures ParseList(RunOf(s[i]) + rest, Revoked(s[..i], ids))
            == ParseList(rest, Revoked(s[..i + 1], ids))
  {
    ParseRun(s[i].lo, s[i].hi - s[i].lo + 1, rest, Revoked(s[..i], ids));
    AppendRange(s, i);
  }

  lemma {:induction false} ParseListBody(s: seq<Range>, k: nat, i: nat, rest: Bytes, ids: set<Bytes>)
    requires Canonical(s) && k <= i <= |s|
    requires forall j | 0 <= j < |s| :: s[j].lo > 0
    ensures ParseList(ListBody(s, k, i) + rest, Revoked(s[..k], ids)) == ParseList(rest, Revoked(s[..i], ids))
    decreases i
  {
    assert k == i ==> ListBody(s, k, i) + rest == rest;
    if k < i {
      var tail := RunOf(s[i - 1]) + rest;
      assert ListBody(s, k, i) + rest == ListBody(s, k, i - 1) + tail;
      ParseListBody(s, k, i - 1, tail, ids);
      ParseListRun(s, i - 1, rest, ids);
    }
  }

  /** Serial `x` is marked by a bit from `i` on. */
  ghost predicate Marked(lo: int, bitmap: nat, i: int, x: int)
  {
    x - lo >= i && x - lo >= 0 && IsBitSet(bitmap, x - lo)
  }

  ghost predicate MarkedAdded(lo: int, bitmap: nat, i: int, rc: Revoked, rc': Revoked)
  {
    && rc'.keyIds == rc.keyIds && Canonical(rc'.serials)
    && forall x :: Covers(rc'.serials, x) <==> Covers(rc.serials, x) || Marked(lo, bitmap, i, x)
  }

  lemma {:induction false} ParseBitsSpec(lo: U64, bitmap: nat, i: nat, rc: Revoked)
    requires lo > 0 && lo + NumBits(bitmap) <= U64_LIMIT && Canonical(rc.serials)
    ensures ParseBits(lo, bitmap, i, rc).Ok?
    ensures MarkedAdded(lo, bitmap, i, rc, ParseBits(lo, bitmap, i, rc).value)
    decreases NumBits(bitmap) - i
  {
    if i >= NumBits(bitmap) {
      forall x ensures !Marked(lo, bitmap, i, x) {
        if x - lo >= i { BitBelowNumBits(bitmap, x - lo); }
      }
    } else {
      assert (lo + i) % U64_LIMIT == lo + i;
      if IsBitSet(bitmap, i) {
        InsertRangeSpec(rc.serials, lo + i, lo + i);
        ParseBitsSpec(lo, bitmap, i + 1, rc.(serials := InsertRange(rc.serials, lo + i, lo + i)));
      } else {
        ParseBitsSpec(lo, bitmap, i + 1, rc);
      }
      forall x
        ensures Marked(lo, bitmap, i, x) <==> (x == lo + i && IsBitSet(bitmap, i)) || Marked(lo, bitmap, i + 1, x)
      {
      }
    }
  }

  ghost function StringsBody(ids: seq<Bytes>, n: nat): Bytes
    requires n <= |ids| && forall i | 0 <= i < |ids| :: StringFits(ids[i])
  {
    if n == 0 then [] else StringsBody(ids, n - 1) + StringBytes(ids[n - 1])
  }

  ghost function Elements(ids: seq<Bytes>): set<Bytes> { set i | 0 <= i < |ids| :: ids[i] }

  lemma ElementsSnoc(ids: seq<Bytes>, n: nat)
    requires n < |ids|
    ensures Elements(ids[..n + 1]) == Elements(ids[..n]) + {ids[n]}
  {
    assert ids[..n + 1] == ids[..n] + [ids[n]];
    assert ids[..n + 1][n] == ids[n];
    forall x | x in Elements(ids[..n]) ensures x in Elements(ids[..n + 1]) {
      var i :| 0 <= i < n && ids[..n][i] == x;
      assert ids[..n + 1][i] == x;
    }
  }

  lemma {:induction false} ParseOneKeyId(id: Bytes, rest: Bytes, rc: Revoked)
    requires StringFits(id) && IsCString(id)
    ensures ParseKeyIds(StringBytes(id) + rest, rc) == ParseKeyIds(rest, rc.(keyIds := rc.keyIds + {id}))
  {
    CStringRoundTrip(id, rest);
  }

  lemma {:induction false} ParseKeyIdBody(ids: seq<Bytes>, n: nat, rest: Bytes, rc: Revoked)
    requires n <= |ids| && forall i | 0 <= i < |ids| :: StringFits(ids[i]) && IsCString(ids[i])
    ensures ParseKeyIds(StringsBody(ids, n) + rest, rc)
            == ParseKeyIds(rest, rc.(keyIds := rc.keyIds + Elements(ids[..n])))
  {
    if n == 0 {
      assert [] + rest == rest;
      assert rc.keyIds + Elements(ids[..0]) == rc.keyIds;
    } else {
      ElementsSnoc(ids, n - 1);
      var ids' := rc.keyIds + Elements(ids[..n - 1]);
      assert ids' + {ids[n - 1]} == rc.keyIds + Elements(ids[..n]);
      ParseOneKeyId(ids[n - 1], rest, rc.(keyIds := ids'));
      ParseKeyIdBody(ids, n - 1, StringBytes(ids[n - 1]) + rest, rc);
      Assoc(StringsBody(ids, n - 1), StringBytes(ids[n - 1]), rest);
    }
  }
}
