/** Writing the certificate section of a key revocation list: choose_next_state and
    revoked_certs_generate of ssh/krl.c, and when what they write can be read back. */
module KrlGenerate {
  import opened Wire
  import opened SerialTree
  import opened KrlParse

  const INT_MAX := 0x7FFF_FFFF

  // ----- Choosing the kind of section

  datatype Choice = Choice(state: int, restart: bool)

  function WholeBytes(bits: nat): nat { (bits + 7) / 8 }

  /** choose_next_state; state 0 means that no section has been started. */
  function ChooseNextState(current: int, contig0: U64, final: bool, lastGap0: U64, nextGap0: U64): (c: Choice)
    ensures c.state == LIST || c.state == RANGE || c.state == BITMAP
    ensures c.restart ==> c.state == BITMAP
  {
    var contig, lastGap, nextGap := Min(contig0, 0x8000_0000), Min(lastGap0, 0x8000_0000), Min(nextGap0, 0x8000_0000);
    var list := WholeBytes((if current == LIST then 0 else 8) + 64 * contig + (if final then 0 else 8 + 64));
    var range := WholeBytes(8 + 2 * 64 + (if final then 0 else 8 + 64));
    var tail := if final then 0 else Min(nextGap, 8 + 64);
    var bitmap := WholeBytes((if current == BITMAP then 0 else 8 + 64) + lastGap + contig + tail);
    var restart := WholeBytes(8 + 64 + contig + tail);
    var c0 := if range < bitmap then (RANGE, range) else (BITMAP, bitmap);
    var c1 := if list < c0.1 then (LIST, list) else c0;
    if restart < c1.1 then Choice(BITMAP, true) else Choice(c1.0, false)
  }

  /** Runs go into a list two serials at a time at most, into a bitmap 208 at most. */
  lemma ChoiceBounds(current: int, contig: U64, final: bool, lastGap: U64, nextGap: U64)
    requires contig > 0
    ensures var c := ChooseNextState(current, contig, final, lastGap, nextGap);
            && (c.state == LIST ==> contig <= 2)
            && (c.state == BITMAP ==> contig <= 208)
            && (c.state == LIST || c.state == RANGE || c.state == BITMAP)
            && (c.restart ==> c.state == BITMAP)
  {
  }

  /** The choice made for range `i` when the open section is of kind `state`. */
  function Next(s: seq<Range>, i: nat, state: int): Choice
    requires i < |s| && Stored(s)
  {
    ChooseNextState(state, 1 + (s[i].hi - s[i].lo), i + 1 == |s|,
                    if state == 0 || i == 0 then 0 else s[i].lo - s[i - 1].hi,
                    if i + 1 == |s| then 0 else s[i + 1].lo - s[i].hi)
  }

  /** What the tree of serials holds: 0 is never stored, so `1 + (hi - lo)` cannot wrap. */
  ghost predicate Stored(s: seq<Range>)
  {
    && Canonical(s)
    && forall i | 0 <= i < |s| :: s[i].lo > 0
  }

  datatype Open = Open(state: int, off: U64)

  /** The section that is open after `i` ranges, and the first serial of its bitmap. */
  function Plan(s: seq<Range>, i: nat): (p: Open)
    requires i <= |s| && Stored(s)
    ensures p.state == 0 <==> i == 0
    ensures i > 0 ==> p.state == LIST || p.state == RANGE || p.state == BITMAP
    ensures p.state == BITMAP ==> p.off <= s[i - 1].lo
  {
    if i == 0 then Open(0, 0)
    else
      var p := Plan(s, i - 1);
      var c := Next(s, i - 1, p.state);
      if c.state == BITMAP && (p.state != BITMAP || c.restart) then Open(BITMAP, s[i - 1].lo)
      else Open(c.state, p.off)
  }

  /** Range `i` can be read back: it does not put a second range into a range section, and
      its bitmap stays below 8192 bits. */
  predicate StepFits(s: seq<Range>, i: nat)
    requires i < |s| && Stored(s)
  {
    && !(Plan(s, i).state == RANGE && Plan(s, i + 1).state == RANGE)
    && (Plan(s, i + 1).state == BITMAP ==> s[i].hi - Plan(s, i + 1).off < 8191)
  }

  predicate Good(s: seq<Range>, i: nat)
    requires i <= |s| && Stored(s)
  {
    forall j | 0 <= j < i :: StepFits(s, j)
  }

  /** The ranges that survive being written and read. */
  predicate Representable(s: seq<Range>)
    requires Stored(s)
  {
    Good(s, |s|)
  }

  // ----- What the open section holds

  function RangeBytes(r: Range): Bytes { U64Bytes(r.lo) + U64Bytes(r.hi) }

  /** A range section that starts with range `j`; it holds more when it was not emptied before
      range `k` was added. */
  ghost predicate RangesHeld(s: seq<Range>, j: nat, k: nat, sect: Bytes)
    requires j <= k < |s|
  {
    |sect| >= 16 && sect[..16] == RangeBytes(s[j]) && (|sect| == 16 <==> j == k)
  }

  ghost predicate BitmapHolds(s: seq<Range>, k: nat, i: nat, bitmap: nat, off: U64)
    requires k < i <= |s|
  {
    && off == s[k].lo
    && NumBits(bitmap) == s[i - 1].hi - off + 1
    && forall x: int :: Marked(off, bitmap, 0, x) <==> Covers(s[k..i], x)
  }

  /** The open section holds ranges k..i, or for a range section ranges j..i. */
  ghost predicate Pending(s: seq<Range>, j: nat, k: nat, i: nat, state: int, sect: Bytes, bitmap: nat, off: U64)
    requires Stored(s)
  {
    && k < i <= |s|
    && (state == LIST || state == RANGE || state == BITMAP)
    && (state == LIST ==> sect == ListBody(s, k, i))
    && (state == RANGE ==> j <= k == i - 1 && RangesHeld(s, j, k, sect))
    && (state == BITMAP ==> sect == U64Bytes(off) && BitmapHolds(s, k, i, bitmap, off))
  }

  ghost predicate PendingFits(s: seq<Range>, j: nat, k: nat, i: nat, state: int, off: U64)
    requires k < i <= |s|
  {
    && (state == RANGE ==> j == k)
    && (state == BITMAP ==> s[i - 1].hi - off < 8191)
  }

  lemma {:induction false} FinishList(s: seq<Range>, k: nat, i: nat)
    requires Stored(s) && k < i <= |s|
    ensures ParseSubsection(LIST, ListBody(s, k, i), Revoked(s[..k], {})) == Ok(Revoked(s[..i], {}))
  {
    ParseListBody(s, k, i, [], {});
    assert ListBody(s, k, i) + [] == ListBody(s, k, i);
  }

  lemma {:induction false} ParseRangeBytes(r: Range, more: Bytes, rc: Revoked)
    requires 0 < r.lo <= r.hi
    ensures ParseSubsection(RANGE, RangeBytes(r) + more, rc)
            == if more == [] then Ok(rc.(serials := InsertRange(rc.serials, r.lo, r.hi))) else Err(InvalidFormat)
  {
    Assoc(U64Bytes(r.lo), U64Bytes(r.hi), more);
    U64RoundTrip(r.lo, U64Bytes(r.hi) + more);
    U64RoundTrip(r.hi, more);
  }

  lemma {:induction false} FinishRange(s: seq<Range>, j: nat, k: nat, sect: Bytes)
    requires Stored(s) && j <= k < |s| && RangesHeld(s, j, k, sect)
    ensures var r := ParseSubsection(RANGE, sect, Revoked(s[..k], {}));
            if j == k then r == Ok(Revoked(s[..k + 1], {})) else r.Err?
  {
    assert sect == RangeBytes(s[j]) + sect[16..];
    ParseRangeBytes(s[j], sect[16..], Revoked(s[..k], {}));
    AppendRange(s, k);
  }

  lemma {:induction false} BitmapSerials(s: seq<Range>, k: nat, i: nat, bitmap: nat, off: U64)
    requires Stored(s) && k < i <= |s| && BitmapHolds(s, k, i, bitmap, off)
    ensures ParseBits(off, bitmap, 0, Revoked(s[..k], {})) == Ok(Revoked(s[..i], {}))
  {
    var rc := Revoked(s[..k], {});
    ParseBitsSpec(off, bitmap, 0, rc);
    var rc' := ParseBits(off, bitmap, 0, rc).value;
    assert s[..i] == s[..k] + s[k..i];
    forall x: int ensures Covers(rc'.serials, x) <==> Covers(s[..i], x) {
      CoversConcat(s[..k], s[k..i], x);
    }
    CanonicalUnique(rc'.serials, s[..i]);
  }

  lemma {:induction false} ParseBitmapBytes(off: U64, bitmap: nat, rc: Revoked)
    requires CanPutBignum(bitmap)
    ensures ParseSubsection(BITMAP, U64Bytes(off) + BignumBytes(bitmap), rc)
            == if NumBits(bitmap) == 8192 then Err(BignumTooLarge) else ParseBits(off, bitmap, 0, rc)
  {
    U64RoundTrip(off, BignumBytes(bitmap));
    BignumRoundTrip(bitmap, []);
    assert BignumBytes(bitmap) + [] == BignumBytes(bitmap);
  }

  lemma {:induction false} FinishBitmap(s: seq<Range>, k: nat, i: nat, bitmap: nat, off: U64)
    requires Stored(s) && k < i <= |s| && BitmapHolds(s, k, i, bitmap, off) && CanPutBignum(bitmap)
    ensures var r := ParseSubsection(BITMAP, U64Bytes(off) + BignumBytes(bitmap), Revoked(s[..k], {}));
            if s[i - 1].hi - off < 8191 then r == Ok(Revoked(s[..i], {})) else r.Err?
  {
    ParseBitmapBytes(off, bitmap, Revoked(s[..k], {}));
    BitmapSerials(s, k, i, bitmap, off);
  }

  // ----- The writer

  ghost predicate RunMarked(bitmap0: nat, bitmap: nat, from: int, to: int)
  {
    && (forall b: nat :: IsBitSet(bitmap, b) <==> IsBitSet(bitmap0, b) || from <= b < to)
    && NumBits(bitmap) == if from < to && NumBits(bitmap0) < to then to else NumBits(bitmap0)
  }

  ghost predicate Appended(state: int, sect0: Bytes, bitmap0: nat, off: U64, rs: Range, sect: Bytes, bitmap: nat)
    requires rs.lo <= rs.hi
  {
    if state == LIST then sect == sect0 + RunOf(rs) && bitmap == bitmap0
    else if state == RANGE then sect == sect0 + RangeBytes(rs) && bitmap == bitmap0
    else sect == sect0 && RunMarked(bitmap0, bitmap, rs.lo - off, rs.hi - off + 1)
  }

  /** The bits from .. from + n. */
  function SetRun(bitmap: nat, from: nat, n: nat): nat
  {
    if n == 0 then bitmap else SetBit(SetRun(bitmap, from, n - 1), from + n - 1)
  }

  lemma {:induction false} SetRunMarks(bitmap: nat, from: nat, n: nat)
    ensures RunMarked(bitmap, SetRun(bitmap, from, n), from, from + n)
  {
    if n > 0 {
      SetRunMarks(bitmap, from, n - 1);
      var prev, bit := SetRun(bitmap, from, n - 1), from + n - 1;
      forall b: nat ensures IsBitSet(SetBit(prev, bit), b) <==> b == bit || IsBitSet(prev, b) {
        SetBitSets(prev, bit, b);
      }
      SetBitNumBits(prev, bit);
    }
  }

  /** The section and the bitmap after one range. */
  function SectWith(state: int, sect: Bytes, rs: Range): Bytes
    requires rs.lo <= rs.hi
  {
    if state == LIST then sect + RunOf(rs) else if state == RANGE then sect + RangeBytes(rs) else sect
  }

  function BitmapWith(state: int, bitmap: nat, off: U64, rs: Range): nat
    requires rs.lo <= rs.hi && (state == BITMAP ==> off <= rs.lo)
  {
    if state == BITMAP then SetRun(bitmap, rs.lo - off, 1 + (rs.hi - rs.lo)) else bitmap
  }

  lemma AppendedWith(state: int, sect: Bytes, bitmap: nat, off: U64, rs: Range)
    requires rs.lo <= rs.hi && (state == BITMAP ==> off <= rs.lo)
    requires state == LIST || state == RANGE || state == BITMAP
    ensures Appended(state, sect, bitmap, off, rs, SectWith(state, sect, rs), BitmapWith(state, bitmap, off, rs))
  {
    if state == BITMAP { SetRunMarks(bitmap, rs.lo - off, 1 + (rs.hi - rs.lo)); }
  }

  /** What BN_set_bit and the puts of one range allow. */
  predicate RunFits(state: int, sect: Bytes, off: U64, rs: Range)
    requires rs.lo <= rs.hi
  {
    if state == BITMAP then rs.hi - off <= INT_MAX else |SectWith(state, sect, rs)| <= SSHBUF_SIZE_MAX
  }

  lemma {:induction false} RunBytesLength(lo: U64, n: nat)
    requires lo + n <= U64_LIMIT
    ensures |RunBytes(lo, n)| == 8 * n
  {
    if n > 0 { RunBytesLength(lo, n - 1); }
  }

  /** The section-specific processing of one range; it fails exactly when a put or BN_set_bit does. */
  method AppendRun(state: int, sect0: Bytes, bitmap0: nat, off: U64, rs: Range) returns (r: Result<(Bytes, nat)>)
    requires rs.lo <= rs.hi && rs.lo > 0 && (state == BITMAP ==> off <= rs.lo)
    requires state == LIST || state == RANGE || state == BITMAP
    ensures r.Ok? <==> RunFits(state, sect0, off, rs)
    ensures r.Ok? ==> r.value == (SectWith(state, sect0, rs), BitmapWith(state, bitmap0, off, rs))
  {
    var contig := 1 + (rs.hi - rs.lo);
    if state == LIST {
      r := AppendList(sect0, rs, bitmap0);
    } else if state == RANGE {
      var sect :- Put(sect0, U64Bytes(rs.lo));
      sect :- Put(sect, U64Bytes(rs.hi));
      Assoc(sect0, U64Bytes(rs.lo), U64Bytes(rs.hi));
      return Ok((sect, bitmap0));
    } else {
      var bitmap := bitmap0;
      for i := 0 to contig
        invariant bitmap == SetRun(bitmap0, rs.lo - off, i) && (i > 0 ==> rs.lo + i - 1 - off <= INT_MAX)
      {
        var bit := rs.lo + i - off;
        if bit > INT_MAX { return Err(LibcryptoError); }
        bitmap := SetBit(bitmap, bit);
      }
      return Ok((sect0, bitmap));
    }
  }

  /** The loop for a list section. */
  method AppendList(sect0: Bytes, rs: Range, bitmap0: nat) returns (r: Result<(Bytes, nat)>)
    requires rs.lo <= rs.hi
    ensures r.Ok? <==> |sect0 + RunOf(rs)| <= SSHBUF_SIZE_MAX
    ensures r.Ok? ==> r.value == (sect0 + RunOf(rs), bitmap0)
  {
    hide U64Bytes;
    var contig := 1 + (rs.hi - rs.lo);
    var sect := sect0;
    RunBytesLength(rs.lo, contig);
    for i := 0 to contig
      invariant sect == sect0 + RunBytes(rs.lo, i) && |RunBytes(rs.lo, i)| == 8 * i
      invariant i > 0 ==> |sect| <= SSHBUF_SIZE_MAX
    {
      RunBytesLength(rs.lo, i + 1);
      sect :- Put(sect, U64Bytes(rs.lo + i));
    }
    return Ok((sect, bitmap0));
  }

  /** The body that is written; a bitmap that cannot be put has none. */
  function Finished(state: int, sect: Bytes, bitmap: nat): Bytes
  {
    if state == BITMAP && CanPutBignum(bitmap) then sect + BignumBytes(bitmap) else sect
  }

  /** Finish the open section and append it to `buf`. */
  method FlushSection(buf: Bytes, state: Byte, sect: Bytes, bitmap: nat) returns (r: Result<Bytes>)
    ensures r.Ok? <==> (state == BITMAP ==> CanPutBignum(bitmap))
                       && |buf| + 5 + |Finished(state, sect, bitmap)| <= SSHBUF_SIZE_MAX
    ensures r.Ok? ==> var body := Finished(state, sect, bitmap);
                      StringFits(body) && r.value == buf + SectionBytes(Section(state, body))
  {
    hide CanPutBignum;
    hide BignumBytes;
    var body := sect;
    if state == BITMAP {
      if !CanPutBignum(bitmap) { return Err(InvalidArgument); }
      body :- Put(sect, BignumBytes(bitmap));
    }
    var buf' :- Put(buf, [state]);
    if !StringFits(body) { return Err(NoBufferSpace); }
    buf' :- Put(buf', StringBytes(body));
    assert buf + SectionBytes(Section(state, body)) == buf + [state] + StringBytes(body);
    return Ok(buf');
  }

  lemma MarkNewRun(s: seq<Range>, i: nat, bitmap: nat)
    requires Stored(s) && i < |s| && RunMarked(0, bitmap, 0, s[i].hi - s[i].lo + 1)
    ensures BitmapHolds(s, i, i + 1, bitmap, s[i].lo)
  {
    assert s[i..i + 1] == [s[i]] + [];
    forall x: int ensures Marked(s[i].lo, bitmap, 0, x) <==> Covers(s[i..i + 1], x) {
      CoversCons(s[i], [], x);
      if x >= s[i].lo { BitBelowNumBits(0, x - s[i].lo); }
    }
  }

  lemma MarkNextRun(s: seq<Range>, k: nat, i: nat, bitmap0: nat, bitmap: nat, off: U64)
    requires Stored(s) && k < i < |s| && BitmapHolds(s, k, i, bitmap0, off)
    requires RunMarked(bitmap0, bitmap, s[i].lo - off, s[i].hi - off + 1)
    ensures BitmapHolds(s, k, i + 1, bitmap, off)
  {
    assert s[k..i + 1] == s[k..i] + ([s[i]] + []);
    forall x: int ensures Marked(off, bitmap, 0, x) <==> Covers(s[k..i + 1], x) {
      CoversConcat(s[k..i], [s[i]] + [], x);
      CoversCons(s[i], [], x);
      assert Marked(off, bitmap0, 0, x) <==> Covers(s[k..i], x);
    }
  }

  /** Where the writer stands after `i` ranges: either what it has written cannot be read,
      or it denotes the first `k` ranges and the open section holds the others. */
  ghost predicate Progress(s: seq<Range>, i: nat, done: seq<Section>, j: nat, k: nat,
                           state: int, sect: Bytes, bitmap: nat, off: U64)
    requires Stored(s)
  {
    && i <= |s|
    && Plan(s, i) == Open(state, off)
    && (i == 0 ==> done == [] && k == 0)
    && (i > 0 ==>
          if ApplyAll(done, NOTHING).Err? then !Good(s, i)
          else && Pending(s, j, k, i, state, sect, bitmap, off)
               && ApplyAll(done, NOTHING) == Ok(Revoked(s[..k], {}))
               && (Good(s, i) <==> PendingFits(s, j, k, i, state, off)))
  }

  ghost predicate Flushed(s: seq<Range>, i: nat, done: seq<Section>)
    requires Stored(s) && i <= |s|
  {
    if Good(s, i) then ApplyAll(done, NOTHING) == Ok(Revoked(s[..i], {})) else ApplyAll(done, NOTHING).Err?
  }

  lemma {:induction false} ApplySnoc(done: seq<Section>, last: Section)
    ensures ApplyAll(done + [last], NOTHING)
            == match ApplyAll(done, NOTHING)
               case Ok(rc) => ParseSubsection(last.kind, last.body, rc)
               case Err(e) => Err(e)
  {
    assert (done + [last])[..|done|] == done;
  }

  lemma {:induction false} AfterList(s: seq<Range>, i: nat, done: seq<Section>, k: nat)
    requires Stored(s) && k < i <= |s| && ApplyAll(done, NOTHING) == Ok(Revoked(s[..k], {}))
    ensures ApplyAll(done + [Section(LIST, ListBody(s, k, i))], NOTHING) == Ok(Revoked(s[..i], {}))
  {
    ApplySnoc(done, Section(LIST, ListBody(s, k, i)));
    FinishList(s, k, i);
  }

  lemma {:induction false} AfterRange(s: seq<Range>, done: seq<Section>, j: nat, k: nat, sect: Bytes)
    requires Stored(s) && j <= k < |s| && RangesHeld(s, j, k, sect)
             && ApplyAll(done, NOTHING) == Ok(Revoked(s[..k], {}))
    ensures var r := ApplyAll(done + [Section(RANGE, sect)], NOTHING);
            if j == k then r == Ok(Revoked(s[..k + 1], {})) else r.Err?
  {
    ApplySnoc(done, Section(RANGE, sect));
    FinishRange(s, j, k, sect);
  }

  lemma {:induction false} AfterBitmap(s: seq<Range>, i: nat, done: seq<Section>, k: nat, bitmap: nat, off: U64)
    requires Stored(s) && k < i <= |s| && BitmapHolds(s, k, i, bitmap, off) && CanPutBignum(bitmap)
    requires ApplyAll(done, NOTHING) == Ok(Revoked(s[..k], {}))
    ensures var r := ApplyAll(done + [Section(BITMAP, U64Bytes(off) + BignumBytes(bitmap))], NOTHING);
            if s[i - 1].hi - off < 8191 then r == Ok(Revoked(s[..i], {})) else r.Err?
  {
    ApplySnoc(done, Section(BITMAP, U64Bytes(off) + BignumBytes(bitmap)));
    FinishBitmap(s, k, i, bitmap, off);
  }

  lemma {:induction false} AfterFlush(s: seq<Range>, i: nat, done: seq<Section>, j: nat, k: nat,
                                      state: Byte, sect: Bytes, bitmap: nat, off: U64)
    requires Stored(s) && i > 0 && Progress(s, i, done, j, k, state, sect, bitmap, off)
    requires state == BITMAP ==> CanPutBignum(bitmap)
    ensures Flushed(s, i, done + [Section(state, Finished(state, sect, bitmap))])
  {
    if ApplyAll(done, NOTHING).Err? {
      ApplySnoc(done, Section(state, Finished(state, sect, bitmap)));
    } else if state == LIST {
      AfterList(s, i, done, k);
    } else if state == RANGE {
      AfterRange(s, done, j, k, sect);
    } else {
      AfterBitmap(s, i, done, k, bitmap, off);
    }
  }

  /** The open section goes on. */
  lemma ContinueSection(s: seq<Range>, i: nat, done: seq<Section>, j: nat, k: nat, state: int,
                        sect: Bytes, bitmap: nat, off: U64, sect': Bytes, bitmap': nat)
    requires Stored(s) && 0 < i < |s| && Progress(s, i, done, j, k, state, sect, bitmap, off)
    requires Next(s, i, state) == Choice(state, false) && state != RANGE
    requires Appended(state, sect, bitmap, off, s[i], sect', bitmap')
    ensures Progress(s, i + 1, done, j, k, state, sect', bitmap', off)
  {
    GoodStep(s, i);
    if ApplyAll(done, NOTHING).Ok? && state == BITMAP {
      MarkNextRun(s, k, i, bitmap, bitmap', off);
    }
  }

  lemma GoodStep(s: seq<Range>, i: nat)
    requires Stored(s) && i < |s|
    ensures Good(s, i + 1) <==> Good(s, i) && StepFits(s, i)
  {
  }

  /** A new section starts with range `i`. */
  lemma StartSection(s: seq<Range>, i: nat, done: seq<Section>, state: int, bitmap: nat, off: U64,
                     sect': Bytes, bitmap': nat)
    requires Stored(s) && i < |s| && Flushed(s, i, done)
    requires Next(s, i, Plan(s, i).state).state == state
    requires Plan(s, i).state != state || Next(s, i, Plan(s, i).state).restart
    requires Plan(s, i + 1) == Open(state, off)
    requires state == BITMAP ==> bitmap == 0
    requires Appended(state, if state == BITMAP then U64Bytes(off) else [], bitmap, off, s[i], sect', bitmap')
    ensures Progress(s, i + 1, done, i, i, state, sect', bitmap', off)
  {
    GoodStep(s, i);
    if state == LIST || state == RANGE || state == BITMAP {
      StartPending(s, i, state, bitmap, off, sect', bitmap');
    }
  }

  lemma StartPending(s: seq<Range>, i: nat, state: int, bitmap: nat, off: U64, sect': Bytes, bitmap': nat)
    requires Stored(s) && i < |s| && (state == LIST || state == RANGE || state == BITMAP)
    requires state == BITMAP ==> bitmap == 0 && off == s[i].lo
    requires Appended(state, if state == BITMAP then U64Bytes(off) else [], bitmap, off, s[i], sect', bitmap')
    ensures Pending(s, i, i, i + 1, state, sect', bitmap', off)
  {
    if state == LIST {
      assert ListBody(s, i, i) == [];
    } else if state == RANGE {
      assert sect'[..16] == RangeBytes(s[i]);
    } else {
      MarkNewRun(s, i, bitmap');
    }
  }

  /** A range follows a range: the finished section is written but not emptied. */
  lemma {:induction false} RangeAgain(s: seq<Range>, i: nat, done: seq<Section>, done': seq<Section>, j: nat, k: nat,
                                      sect: Bytes, bitmap: nat, off: U64)
    requires Stored(s) && 0 < i < |s| && Progress(s, i, done, j, k, RANGE, sect, bitmap, off)
    requires Flushed(s, i, done') && (ApplyAll(done, NOTHING).Err? ==> ApplyAll(done', NOTHING).Err?)
    requires Next(s, i, RANGE).state == RANGE && !Next(s, i, RANGE).restart
    ensures Progress(s, i + 1, done', j, i, RANGE, sect + RangeBytes(s[i]), bitmap, off)
  {
    hide ChooseNextState;
    hide ApplyAll;
    hide U64Bytes;
    RangeLength(s[i]);
    GoodStep(s, i);
    assert |sect| >= 16 ==> (sect + RangeBytes(s[i]))[..16] == sect[..16];
  }

  // ----- What is written, range by range

  predicate Starts(s: seq<Range>, i: nat)
    requires i < |s| && Stored(s)
  {
    var c := Next(s, i, Plan(s, i).state);
    c.state != Plan(s, i).state || c.restart
  }

  /** The open section is finished before range `i`: always for a range section. */
  predicate Closes(s: seq<Range>, i: nat)
    requires i < |s| && Stored(s)
  {
    i > 0 && (Starts(s, i) || Plan(s, i).state == RANGE)
  }

  /** The sections written, the contents of the open one, and which ranges it holds. */
  datatype Emission = Emission(done: seq<Section>, j: nat, k: nat, sect: Bytes, bitmap: nat)

  ghost function Flush(s: seq<Range>, i: nat, e: Emission): seq<Section>
    requires 0 < i <= |s| && Stored(s)
  {
    e.done + [Section(Plan(s, i).state, Finished(Plan(s, i).state, e.sect, e.bitmap))]
  }

  ghost function Emit(s: seq<Range>, i: nat): Emission
    requires i <= |s| && Stored(s)
  {
    if i == 0 then Emission([], 0, 0, [], 0)
    else
      var n, e, p, starts := i - 1, Emit(s, i - 1), Plan(s, i), Starts(s, i - 1);
      var sect := if !starts then e.sect else if p.state == BITMAP then U64Bytes(p.off) else [];
      var bitmap := if starts && p.state == BITMAP then 0 else e.bitmap;
      Emission(if Closes(s, n) then Flush(s, n, e) else e.done,
               if starts then n else e.j,
               if starts || p.state == RANGE then n else e.k,
               SectWith(p.state, sect, s[n]), BitmapWith(p.state, bitmap, p.off, s[n]))
  }

  /** A bitmap gap above INT_MAX: an error is logged, but revoked_certs_generate returns success
      with what it has written so far. */
  predicate GivesUpAt(s: seq<Range>, i: nat)
    requires i < |s| && Stored(s)
  {
    Plan(s, i + 1).state == BITMAP && s[i].lo - Plan(s, i + 1).off > INT_MAX
  }

  /** Where the writer stops: at the first such gap from `i` on, or at the end. */
  function Stop(s: seq<Range>, i: nat): (n: nat)
    requires i <= |s| && Stored(s)
    ensures i <= n <= |s| && (n < |s| ==> GivesUpAt(s, n)) && forall m | i <= m < n :: !GivesUpAt(s, m)
    decreases |s| - i
  {
    if i == |s| || GivesUpAt(s, i) then i else Stop(s, i + 1)
  }

  /** The sections that are written for the serials. */
  ghost function SerialSections(s: seq<Range>): seq<Section>
    requires Stored(s)
  {
    var n := Stop(s, 0);
    if n == |s| && n > 0 then Flush(s, n, Emit(s, n)) else Emit(s, n).done
  }

  // ----- What it denotes

  /** Every bitmap finished before range `i` could be put. */
  ghost predicate PutUpTo(s: seq<Range>, i: nat)
    requires i <= |s| && Stored(s)
  {
    forall n | 0 <= n < i && Closes(s, n) && Plan(s, n).state == BITMAP :: CanPutBignum(Emit(s, n).bitmap)
  }

  lemma {:induction false} FlushDenotes(s: seq<Range>, i: nat, e: Emission)
    requires Stored(s) && 0 < i <= |s| && (Plan(s, i).state == BITMAP ==> CanPutBignum(e.bitmap))
    requires Progress(s, i, e.done, e.j, e.k, Plan(s, i).state, e.sect, e.bitmap, Plan(s, i).off)
    ensures Flushed(s, i, Flush(s, i, e))
    ensures ApplyAll(e.done, NOTHING).Err? ==> ApplyAll(Flush(s, i, e), NOTHING).Err?
  {
    hide CanPutBignum;
    hide Progress;
    AfterFlush(s, i, e.done, e.j, e.k, Plan(s, i).state, e.sect, e.bitmap, Plan(s, i).off);
    ApplySnoc(e.done, Section(Plan(s, i).state, Finished(Plan(s, i).state, e.sect, e.bitmap)));
  }

  lemma {:induction false} EmitProgress(s: seq<Range>, i: nat)
    requires Stored(s) && i <= |s| && PutUpTo(s, i)
    ensures var e := Emit(s, i);
            Progress(s, i, e.done, e.j, e.k, Plan(s, i).state, e.sect, e.bitmap, Plan(s, i).off)
  {
    hide Progress;
    hide Emit;
    hide Plan;
    hide CanPutBignum;
    if i == 0 {
      NoProgress(s);
    } else {
      EmitProgress(s, i - 1);
      EmitStep(s, i - 1);
    }
  }

  lemma {:induction false} NoProgress(s: seq<Range>)
    requires Stored(s)
    ensures var e := Emit(s, 0);
            Progress(s, 0, e.done, e.j, e.k, Plan(s, 0).state, e.sect, e.bitmap, Plan(s, 0).off)
  {
  }

  lemma EmitStep(s: seq<Range>, n: nat)
    requires Stored(s) && n < |s| && (Closes(s, n) && Plan(s, n).state == BITMAP ==> CanPutBignum(Emit(s, n).bitmap))
    requires var e := Emit(s, n);
             Progress(s, n, e.done, e.j, e.k, Plan(s, n).state, e.sect, e.bitmap, Plan(s, n).off)
    ensures var e := Emit(s, n + 1);
            Progress(s, n + 1, e.done, e.j, e.k, Plan(s, n + 1).state, e.sect, e.bitmap, Plan(s, n + 1).off)
  {
    hide Progress;
    hide Flushed;
    hide Flush;
    hide CanPutBignum;
    hide SectWith;
    hide BitmapWith;
    hide ChooseNextState;
    var e, p, p' := Emit(s, n), Plan(s, n), Plan(s, n + 1);
    var sect := if !Starts(s, n) then e.sect else if p'.state == BITMAP then U64Bytes(p'.off) else [];
    var bitmap := if Starts(s, n) && p'.state == BITMAP then 0 else e.bitmap;
    AppendedWith(p'.state, sect, bitmap, p'.off, s[n]);
    var done := if Closes(s, n) then Flush(s, n, e) else e.done;
    if Closes(s, n) { FlushDenotes(s, n, e); }
    if n == 0 { NothingFlushed(s); }
    var e' := Emit(s, n + 1);
    if Starts(s, n) {
      StartSection(s, n, done, p'.state, bitmap, p'.off, e'.sect, e'.bitmap);
    } else if p'.state == RANGE {
      SectWithRange(sect, s[n]);
      RangeAgain(s, n, e.done, done, e.j, e.k, e.sect, e.bitmap, p.off);
    } else {
      ContinueSection(s, n, e.done, e.j, e.k, p.state, e.sect, e.bitmap, p.off, e'.sect, e'.bitmap);
    }
  }

  lemma SectWithRange(sect: Bytes, rs: Range)
    requires rs.lo <= rs.hi
    ensures SectWith(RANGE, sect, rs) == sect + RangeBytes(rs)
  {
  }

  lemma NothingFlushed(s: seq<Range>)
    requires Stored(s)
    ensures Flushed(s, 0, [])
  {
    assert s[..0] == [];
  }

  /** Only ranges from the start of `s`, and no key IDs. */
  ghost predicate CutShort(s: seq<Range>, rc: Revoked) { exists k: nat | k < |s| :: rc == Revoked(s[..k], {}) }

  /** The sections do not hold all of `s`. */
  ghost predicate Partial(s: seq<Range>, done: seq<Section>)
  {
    ApplyAll(done, NOTHING).Ok? ==> CutShort(s, ApplyAll(done, NOTHING).value)
  }

  /** The writer gives up in a bitmap that already holds ranges. */
  lemma {:induction false} GivesUp(s: seq<Range>, i: nat)
    requires Stored(s) && i < |s| && PutUpTo(s, i) && GivesUpAt(s, i)
    ensures !Representable(s) && Partial(s, Emit(s, i).done) && !Closes(s, i) && i > 0 && Plan(s, i).state == BITMAP
  {
    EmitProgress(s, i);
    assert !StepFits(s, i);
    var done, k := Emit(s, i).done, Emit(s, i).k;
    if ApplyAll(done, NOTHING).Ok? { assert ApplyAll(done, NOTHING).value == Revoked(s[..k], {}); }
  }

  // ----- When writing succeeds

  lemma EmitBitmap(s: seq<Range>, n: nat)
    requires Stored(s) && n < |s| && Plan(s, n + 1).state == BITMAP
    ensures Emit(s, n + 1).bitmap
            == SetRun(if Starts(s, n) then 0 else Emit(s, n).bitmap,
                      s[n].lo - Plan(s, n + 1).off, 1 + (s[n].hi - s[n].lo))
    ensures if Starts(s, n) then Plan(s, n + 1).off == s[n].lo else n > 0 && Plan(s, n) == Plan(s, n + 1)
  {
    hide ChooseNextState;
    hide SetRun;
  }

  /** Bitmaps have as many bits as the serials they span. */
  lemma {:induction false} EmitBits(s: seq<Range>, i: nat)
    requires Stored(s) && 0 < i <= |s| && Plan(s, i).state == BITMAP
    ensures NumBits(Emit(s, i).bitmap) == s[i - 1].hi - Plan(s, i).off + 1
    ensures CanPutBignum(Emit(s, i).bitmap) <==> s[i - 1].hi - Plan(s, i).off < 8192
  {
    hide Emit;
    hide Plan;
    hide Starts;
    hide NumBits;
    hide SetRun;
    var n := i - 1;
    EmitBitmap(s, n);
    NoBits();
    if !Starts(s, n) { EmitBits(s, n); }
    SetRunMarks(if Starts(s, n) then 0 else Emit(s, n).bitmap, s[n].lo - Plan(s, i).off, 1 + (s[n].hi - s[n].lo));
  }

  lemma NoBits()
    ensures NumBits(0) == 0
  {
  }

  /** Every bitmap that is finished has at most 8192 bits, and no bit is beyond the range of an int. */
  predicate SerialsFit(s: seq<Range>)
    requires Stored(s)
  {
    && (forall n | 0 < n <= Stop(s, 0) && Plan(s, n).state == BITMAP && (n == |s| || Closes(s, n)) ::
          s[n - 1].hi - Plan(s, n).off < 8192)
    && (forall n | 0 < n <= Stop(s, 0) && Plan(s, n).state == BITMAP :: s[n - 1].hi - Plan(s, n).off <= INT_MAX)
  }

  /** The size of the encoded sections. */
  ghost function Size(ss: seq<Section>): nat
  {
    if ss == [] then 0 else Size(ss[..|ss| - 1]) + 5 + |ss[|ss| - 1].body|
  }

  lemma {:induction false} SizeSnoc(ss: seq<Section>, last: Section)
    ensures Size(ss + [last]) == Size(ss) + 5 + |last.body|
  {
    assert (ss + [last])[..|ss|] == ss;
  }

  lemma {:induction false} SizeIsLength(ss: seq<Section>)
    requires Size(ss) <= SSHBUF_SIZE_MAX
    ensures Sections(ss) && |Encode(ss)| == Size(ss)
  {
    if ss != [] {
      SizeIsLength(ss[..|ss| - 1]);
      assert forall i | 0 <= i < |ss| - 1 :: ss[..|ss| - 1][i] == ss[i];
    }
  }

  /** The puts and the bits of one iteration. */
  ghost predicate IterationFits(s: seq<Range>, i: nat, h: nat)
    requires i < |s| && Stored(s)
  {
    && (Closes(s, i) ==>
          (Plan(s, i).state == BITMAP ==> CanPutBignum(Emit(s, i).bitmap))
          && h + Size(Emit(s, i + 1).done) <= SSHBUF_SIZE_MAX)
    && (if Plan(s, i + 1).state == BITMAP then s[i].hi - Plan(s, i + 1).off <= INT_MAX
        else |Emit(s, i + 1).sect| <= SSHBUF_SIZE_MAX)
  }

  ghost predicate AllFit(s: seq<Range>, n: nat, h: nat)
    requires n <= |s| && Stored(s)
  {
    forall i | 0 <= i < n :: IterationFits(s, i, h)
  }

  /** After the loop the last section is flushed, unless the writer gave up. */
  ghost predicate LastFits(s: seq<Range>, h: nat)
    requires Stored(s)
  {
    var n := Stop(s, 0);
    n == |s| && n > 0 ==>
      (Plan(s, n).state == BITMAP ==> CanPutBignum(Emit(s, n).bitmap)) && h + Size(SerialSections(s)) <= SSHBUF_SIZE_MAX
  }

  /** What the output will hold at least, with the open section counted unless it is a bitmap. */
  ghost function Committed(s: seq<Range>, i: nat): nat
    requires i <= |s| && Stored(s)
  {
    var e := Emit(s, i);
    Size(e.done) + if Plan(s, i).state == LIST || Plan(s, i).state == RANGE then 5 + |e.sect| else 0
  }

  lemma CommittedGrows(s: seq<Range>, i: nat)
    requires i < |s| && Stored(s)
    ensures Committed(s, i) <= Committed(s, i + 1)
  {
    hide ChooseNextState;
    hide Finished;
    var e := Emit(s, i);
    if Closes(s, i) {
      SizeSnoc(e.done, Section(Plan(s, i).state, Finished(Plan(s, i).state, e.sect, e.bitmap)));
      FinishedHolds(Plan(s, i).state, e.sect, e.bitmap);
    }
  }

  lemma FinishedHolds(state: int, sect: Bytes, bitmap: nat)
    ensures |Finished(state, sect, bitmap)| >= |sect|
  {
  }

  lemma {:induction false} CommittedUpTo(s: seq<Range>, i: nat, n: nat)
    requires i <= n <= |s| && Stored(s)
    ensures Committed(s, i) <= Committed(s, n)
  {
    hide Committed;
    if i < n {
      CommittedUpTo(s, i, n - 1);
      CommittedGrows(s, n - 1);
    }
  }

  /** The whole output holds all that is committed on the way. */
  lemma {:induction false} CommittedIsWritten(s: seq<Range>, i: nat)
    requires Stored(s) && i <= Stop(s, 0) && PutUpTo(s, Stop(s, 0))
    ensures Committed(s, i) <= Size(SerialSections(s))
  {
    var n := Stop(s, 0);
    CommittedUpTo(s, i, n);
    if n < |s| {
      GivesUp(s, n);
    } else if n > 0 {
      var e := Emit(s, n);
      SizeSnoc(e.done, Section(Plan(s, n).state, Finished(Plan(s, n).state, e.sect, e.bitmap)));
      FinishedHolds(Plan(s, n).state, e.sect, e.bitmap);
    }
  }

  lemma {:induction false} FitsIsPut(s: seq<Range>)
    requires Stored(s) && SerialsFit(s)
    ensures PutUpTo(s, Stop(s, 0))
  {
    hide Emit;
    hide Plan;
    hide CanPutBignum;
    forall n | 0 <= n < Stop(s, 0) && Closes(s, n) && Plan(s, n).state == BITMAP
      ensures CanPutBignum(Emit(s, n).bitmap)
    {
      EmitBits(s, n);
    }
  }

  lemma {:induction false} AllFitIsPut(s: seq<Range>, h: nat)
    requires Stored(s) && AllFit(s, Stop(s, 0), h)
    ensures PutUpTo(s, Stop(s, 0))
  {
    hide Emit;
    hide Plan;
    hide CanPutBignum;
    forall n | 0 <= n < Stop(s, 0) && Closes(s, n) && Plan(s, n).state == BITMAP
      ensures CanPutBignum(Emit(s, n).bitmap)
    {
      assert IterationFits(s, n, h);
    }
  }

  /** The writer succeeds exactly when its bitmaps fit and its output does. */
  lemma {:induction false} SucceedsIff(s: seq<Range>, h: nat)
    requires Stored(s) && h <= SSHBUF_SIZE_MAX
    ensures AllFit(s, Stop(s, 0), h) && LastFits(s, h) <==>
            SerialsFit(s) && h + Size(SerialSections(s)) <= SSHBUF_SIZE_MAX
  {
    hide Emit;
    hide Plan;
    hide CanPutBignum;
    if SerialsFit(s) && h + Size(SerialSections(s)) <= SSHBUF_SIZE_MAX {
      FitsSucceeds(s, h);
    }
    if AllFit(s, Stop(s, 0), h) && LastFits(s, h) {
      SuccessFits(s, h);
    }
  }

  lemma {:induction false} FitsSucceeds(s: seq<Range>, h: nat)
    requires Stored(s) && SerialsFit(s) && h + Size(SerialSections(s)) <= SSHBUF_SIZE_MAX
    ensures AllFit(s, Stop(s, 0), h) && LastFits(s, h)
  {
    hide Emit;
    hide Plan;
    hide CanPutBignum;
    hide SerialSections;
    FitsIsPut(s);
    forall i | 0 <= i < Stop(s, 0) ensures IterationFits(s, i, h) {
      CommittedIsWritten(s, i + 1);
      if Closes(s, i) && Plan(s, i).state == BITMAP { EmitBits(s, i); }
    }
    var n := Stop(s, 0);
    if n == |s| && n > 0 && Plan(s, n).state == BITMAP { EmitBits(s, n); }
  }

  lemma {:induction false} SuccessFits(s: seq<Range>, h: nat)
    requires Stored(s) && AllFit(s, Stop(s, 0), h) && LastFits(s, h) && h <= SSHBUF_SIZE_MAX
    ensures SerialsFit(s) && h + Size(SerialSections(s)) <= SSHBUF_SIZE_MAX
  {
    hide Emit;
    hide Plan;
    hide CanPutBignum;
    var m := Stop(s, 0);
    forall n | 0 < n <= m && Plan(s, n).state == BITMAP
      ensures s[n - 1].hi - Plan(s, n).off <= INT_MAX
              && (n == |s| || Closes(s, n) ==> s[n - 1].hi - Plan(s, n).off < 8192)
    {
      assert IterationFits(s, n - 1, h);
      EmitBits(s, n);
      AllFitIsPut(s, h);
      if n < m { assert IterationFits(s, n, h); } else if n < |s| { GivesUp(s, n); }
    }
    if m < |s| || m == 0 { StoppedSize(s, m, h); }
  }

  /** What has been written when the writer gives up has been put. */
  lemma {:induction false} StoppedSize(s: seq<Range>, n: nat, h: nat)
    requires Stored(s) && n <= |s| && AllFit(s, n, h) && h <= SSHBUF_SIZE_MAX
    ensures h + Size(Emit(s, n).done) <= SSHBUF_SIZE_MAX
  {
    hide CanPutBignum;
    hide Plan;
    if n > 0 {
      StoppedSize(s, n - 1, h);
      assert IterationFits(s, n - 1, h);
    }
  }

  // ----- The loop

  /** The local variables of revoked_certs_generate. */
  datatype Writer = Writer(buf: Bytes, state: int, off: U64, sect: Bytes, bitmap: nat)

  /** How one iteration ends. */
  datatype Step = Failed(error: Error) | GaveUp(buf: Bytes) | Going(w: Writer)

  ghost predicate Output(header: Bytes, buf: Bytes, done: seq<Section>)
  {
    Sections(done) && buf == header + Encode(done)
  }

  /** The variables after `i` ranges. */
  ghost predicate At(s: seq<Range>, i: nat, header: Bytes, w: Writer)
    requires i <= |s| && Stored(s)
  {
    && Output(header, w.buf, Emit(s, i).done) && |Encode(Emit(s, i).done)| == Size(Emit(s, i).done)
    && Open(w.state, w.off) == Plan(s, i) && w.sect == Emit(s, i).sect && w.bitmap == Emit(s, i).bitmap
  }

  lemma {:induction false} EncodeSnoc(header: Bytes, done: seq<Section>, last: Section)
    requires Sections(done) && StringFits(last.body)
    ensures Sections(done + [last])
    ensures header + Encode(done + [last]) == header + Encode(done) + SectionBytes(last)
    ensures |Encode(done + [last])| == |Encode(done)| + 5 + |last.body|
  {
    assert (done + [last])[..|done|] == done;
  }

  lemma EmitDone(s: seq<Range>, i: nat)
    requires Stored(s) && i < |s|
    ensures Emit(s, i + 1).done == if Closes(s, i) then Flush(s, i, Emit(s, i)) else Emit(s, i).done
    ensures var c, state := Next(s, i, Plan(s, i).state), Plan(s, i).state;
            Closes(s, i) <==> state != 0 && (c.restart || c.state != state || state == RANGE)
  {
    hide Next;
    hide Flush;
    hide SectWith;
    hide BitmapWith;
  }

  /** Finish the open section before range `i`, if the choice made for it says so. */
  method CloseSection(s: seq<Range>, i: nat, ghost header: Bytes, w: Writer, c: Choice) returns (r: Result<Bytes>)
    requires Stored(s) && i < |s| && At(s, i, header, w) && c == Next(s, i, w.state)
    ensures r.Ok? <==> (Closes(s, i) ==> (w.state == BITMAP ==> CanPutBignum(w.bitmap))
                                         && |header| + Size(Emit(s, i + 1).done) <= SSHBUF_SIZE_MAX)
    ensures r.Ok? ==> Output(header, r.value, Emit(s, i + 1).done)
                      && |Encode(Emit(s, i + 1).done)| == Size(Emit(s, i + 1).done)
  {
    hide CanPutBignum;
    hide Plan;
    hide Emit;
    hide Next;
    hide Closes;
    hide Finished;
    EmitDone(s, i);
    r := Ok(w.buf);
    if w.state != 0 && (c.restart || c.state != w.state || w.state == RANGE) {
      r := FlushSection(w.buf, w.state, w.sect, w.bitmap);
      ghost var last := Section(w.state, Finished(w.state, w.sect, w.bitmap));
      SizeSnoc(Emit(s, i).done, last);
      if r.Ok? { EncodeSnoc(header, Emit(s, i).done, last); }
    }
  }

  /** One iteration of the loop over the ranges. */
  method WriteRange(s: seq<Range>, i: nat, ghost header: Bytes, w: Writer) returns (step: Step)
    requires Stored(s) && i < |s| && At(s, i, header, w) && PutUpTo(s, i)
    ensures match step
            case GaveUp(buf) => GivesUpAt(s, i) && buf == w.buf
            case Going(w') => !GivesUpAt(s, i) && IterationFits(s, i, |header|) && At(s, i + 1, header, w')
            case Failed(_) => !GivesUpAt(s, i) && !IterationFits(s, i, |header|)
  {
    hide CanPutBignum;
    hide ChooseNextState;
    hide SectWith;
    hide BitmapWith;
    hide Encode;
    hide Size;
    hide PutUpTo;
    hide Flush;
    hide U64Bytes;
    var rs := s[i];
    var c := Next(s, i, w.state);
    var x := CloseSection(s, i, header, w, c);
    if GivesUpAt(s, i) { GivesUp(s, i); }
    if x.Err? { return Failed(x.error); }
    var starts := c.state != w.state || c.restart;
    var off := if starts && c.state == BITMAP then rs.lo else w.off;
    var sect := if !starts then w.sect else if c.state == BITMAP then U64Bytes(off) else [];
    var bitmap := if starts && c.state == BITMAP then 0 else w.bitmap;
    if c.state == BITMAP && rs.lo - off > INT_MAX { return GaveUp(x.value); }
    var y := AppendRun(c.state, sect, bitmap, off, rs);
    if y.Err? { return Failed(y.error); }
    return Going(Writer(x.value, c.state, off, y.value.0, y.value.1));
  }

  /** The loop over the ranges. */
  method WriteRanges(header: Bytes, s: seq<Range>) returns (step: Step)
    requires Stored(s)
    ensures match step
            case GaveUp(buf) =>
              Stop(s, 0) < |s| && AllFit(s, Stop(s, 0), |header|) && Output(header, buf, Emit(s, Stop(s, 0)).done)
            case Going(w) => Stop(s, 0) == |s| && AllFit(s, |s|, |header|) && At(s, |s|, header, w)
            case Failed(_) => !AllFit(s, Stop(s, 0), |header|)
  {
    hide IterationFits;
    hide GivesUpAt;
    hide Stop;
    hide Emit;
    hide Plan;
    hide Output;
    hide PutUpTo;
    hide AllFit;
    NoneFits(s, |header|);
    step := Going(Writer(header, 0, 0, [], 0));
    StartWriting(header, s);
    var i := 0;
    while step.Going? && i < |s|
      invariant 0 <= i <= |s| && (step.Going? || i < |s|)
      invariant AllFit(s, i, |header|) && PutUpTo(s, i) && forall m | 0 <= m < i :: !GivesUpAt(s, m)
      invariant match step
                case GaveUp(buf) => GivesUpAt(s, i) && Output(header, buf, Emit(s, i).done)
                case Going(w) => At(s, i, header, w)
                case Failed(_) => !GivesUpAt(s, i) && !IterationFits(s, i, |header|)
      decreases |s| - i, step.Going?
    {
      step := WriteRange(s, i, header, step.w);
      if step.Going? {
        FitsIsPutNext(s, i, |header|);
        i := i + 1;
      }
    }
    if step.Failed? { OneDoesNotFit(s, i, |header|); }
  }

  lemma StartWriting(header: Bytes, s: seq<Range>)
    requires Stored(s)
    ensures At(s, 0, header, Writer(header, 0, 0, [], 0))
  {
    assert header + Encode([]) == header;
  }

  lemma FitsIsPutNext(s: seq<Range>, i: nat, h: nat)
    requires Stored(s) && i < |s| && PutUpTo(s, i) && AllFit(s, i, h) && IterationFits(s, i, h)
    ensures PutUpTo(s, i + 1) && AllFit(s, i + 1, h)
  {
    hide CanPutBignum;
    hide Emit;
    hide Plan;
  }

  lemma NoneFits(s: seq<Range>, h: nat)
    requires Stored(s)
    ensures PutUpTo(s, 0) && AllFit(s, 0, h)
  {
  }

  lemma {:induction false} OneDoesNotFit(s: seq<Range>, i: nat, h: nat)
    requires Stored(s) && i < Stop(s, 0) && !IterationFits(s, i, h)
    ensures !AllFit(s, Stop(s, 0), h)
  {
  }

  /** The loop, and the flush of the last section.  It succeeds exactly when the bitmaps that are
      finished have at most 8192 bits and the output fits the buffer. */
  method GenerateSerials(header: Bytes, s: seq<Range>) returns (r: Result<Bytes>, gaveUp: bool)
    requires Stored(s) && |header| <= SSHBUF_SIZE_MAX
    ensures r.Ok? <==> SerialsFit(s) && |header| + Size(SerialSections(s)) <= SSHBUF_SIZE_MAX
    ensures r.Ok? ==> gaveUp == (Stop(s, 0) < |s|) && Output(header, r.value, SerialSections(s))
  {
    hide CanPutBignum;
    hide Emit;
    hide Plan;
    hide SerialsFit;
    hide AllFit;
    var step := WriteRanges(header, s);
    SucceedsIff(s, |header|);
    gaveUp := step.GaveUp?;
    match step {
      case Failed(e) => r := Err(e);
      case GaveUp(buf) => r := Ok(buf);
      case Going(w) =>
        if w.state == 0 { return Ok(w.buf), false; }
        ghost var e := Emit(s, |s|);
        ghost var last := Section(w.state, Finished(w.state, w.sect, w.bitmap));
        r := FlushSection(w.buf, w.state, w.sect, w.bitmap);
        SizeSnoc(e.done, last);
        if r.Ok? { EncodeSnoc(header, e.done, last); }
    }
  }

  /** What the serials are read as: all of them exactly when they are representable. */
  lemma {:induction false} SerialsDenote(s: seq<Range>)
    requires Stored(s) && SerialsFit(s)
    ensures Stop(s, 0) == |s| ==> Flushed(s, |s|, SerialSections(s))
    ensures Stop(s, 0) < |s| ==> !Representable(s) && Partial(s, SerialSections(s))
  {
    hide CanPutBignum;
    hide Emit;
    hide Plan;
    hide Progress;
    hide Flushed;
    var n := Stop(s, 0);
    FitsIsPut(s);
    if n < |s| {
      GivesUp(s, n);
    } else if n == 0 {
      NothingFlushed(s);
      NothingEmitted(s);
    } else {
      EmitProgress(s, n);
      if Plan(s, n).state == BITMAP { EmitBits(s, n); }
      FlushDenotes(s, n, Emit(s, n));
    }
  }

  lemma {:induction false} NothingEmitted(s: seq<Range>)
    requires Stored(s)
    ensures Emit(s, 0).done == []
  {
  }

  // ----- Key IDs and the whole section

  predicate AllStrings(ids: seq<Bytes>) { forall i | 0 <= i < |ids| :: StringFits(ids[i]) }

  /** A section of strings, left out when there are none. */
  ghost function StringSection(kind: Byte, ids: seq<Bytes>): seq<Section>
    requires AllStrings(ids)
  {
    if ids == [] then [] else [Section(kind, StringsBody(ids, |ids|))]
  }

  lemma {:induction false} StringsBodyPrefix(a: seq<Bytes>, b: seq<Bytes>, n: nat)
    requires n <= |a| <= |b| && a == b[..|a|]
    requires forall i | 0 <= i < |b| :: StringFits(b[i])
    ensures StringsBody(a, n) == StringsBody(b, n)
  {
    if n > 0 { StringsBodyPrefix(a, b, n - 1); }
  }

  lemma {:induction false} StringsBodyGrows(ids: seq<Bytes>, i: nat, n: nat)
    requires i <= n <= |ids| && AllStrings(ids)
    ensures |StringsBody(ids, i)| <= |StringsBody(ids, n)|
    ensures i < n ==> |StringsBody(ids, i)| + |StringBytes(ids[i])| <= |StringsBody(ids, n)|
  {
    hide StringBytes;
    if i < n - 1 { StringsBodyGrows(ids, i, n - 1); }
  }

  /** A section of strings: the key IDs of one CA, the explicitly revoked keys or the key hashes.
      It fails exactly when it does not fit. */
  method GenerateStrings(buf: Bytes, kind: Byte, ids: seq<Bytes>) returns (r: Result<Bytes>)
    requires kind != BITMAP && |buf| <= SSHBUF_SIZE_MAX
    ensures r.Ok? <==> AllStrings(ids) && |buf| + Size(StringSection(kind, ids)) <= SSHBUF_SIZE_MAX
    ensures r.Ok? ==> Output(buf, r.value, StringSection(kind, ids))
  {
    hide StringBytes;
    hide StringFits;
    var sect: Bytes := [];
    for i := 0 to |ids|
      invariant AllStrings(ids[..i]) && sect == StringsBody(ids[..i], i) && (i > 0 ==> |sect| > 0)
    {
      if !StringFits(ids[i]) { return Err(NoBufferSpace); }
      StringsBodyPrefix(ids[..i], ids[..i + 1], i);
      if |sect + StringBytes(ids[i])| > SSHBUF_SIZE_MAX { TooManyStrings(buf, kind, ids, i); }
      NotEmpty(ids[i]);
      sect :- Put(sect, StringBytes(ids[i]));
    }
    assert ids[..|ids|] == ids;
    ghost var ss := StringSection(kind, ids);
    if |sect| == 0 {
      assert buf + Encode(ss) == buf;
      return Ok(buf);
    }
    SizeSnoc([], Section(kind, sect));
    assert [] + [Section(kind, sect)] == ss;
    r := FlushSection(buf, kind, sect, 0);
    if r.Ok? { EncodeSnoc(buf, [], Section(kind, sect)); assert buf + Encode([]) == buf; }
  }

  lemma NotEmpty(s: Bytes)
    requires StringFits(s)
    ensures |StringBytes(s)| > 0
  {
  }

  lemma {:induction false} TooManyStrings(buf: Bytes, kind: Byte, ids: seq<Bytes>, i: nat)
    requires i < |ids| && AllStrings(ids[..i]) && StringFits(ids[i])
    requires |StringsBody(ids[..i], i)| + |StringBytes(ids[i])| > SSHBUF_SIZE_MAX
    ensures !(AllStrings(ids) && |buf| + Size(StringSection(kind, ids)) <= SSHBUF_SIZE_MAX)
  {
    hide StringBytes;
    hide StringFits;
    if AllStrings(ids) {
      StringsBodyPrefix(ids[..i], ids, i);
      StringsBodyGrows(ids, i, |ids|);
      SizeSnoc([], Section(kind, StringsBody(ids, |ids|)));
      assert [] + StringSection(kind, ids) == StringSection(kind, ids);
    }
  }

  function Header(ca: Bytes): Bytes
    requires StringFits(ca)
  {
    StringBytes(ca) + StringBytes([])
  }

  /** The subsections for one CA; the key IDs are left out when the writer gave up. */
  ghost function CertSections(s: seq<Range>, ids: seq<Bytes>): seq<Section>
    requires Stored(s) && (Stop(s, 0) == |s| ==> AllStrings(ids))
  {
    SerialSections(s) + if Stop(s, 0) < |s| then [] else StringSection(KEY_ID, ids)
  }

  /** When revoked_certs_generate succeeds. */
  ghost predicate CertsFit(buf: Bytes, ca: Bytes, s: seq<Range>, ids: seq<Bytes>)
    requires Stored(s)
  {
    && StringFits(ca) && SerialsFit(s) && (Stop(s, 0) == |s| ==> AllStrings(ids))
    && |buf| + |Header(ca)| + Size(CertSections(s, ids)) <= SSHBUF_SIZE_MAX
  }

  /** What it leaves in the buffer. */
  ghost function Generated(buf: Bytes, ca: Bytes, s: seq<Range>, ids: seq<Bytes>): (r: Bytes)
    requires Stored(s) && CertsFit(buf, ca, s, ids)
    ensures |r| == |buf| + |Header(ca)| + Size(CertSections(s, ids)) <= SSHBUF_SIZE_MAX
  {
    hide SerialsFit;
    hide CertSections;
    hide Stored;
    SizeIsLength(CertSections(s, ids)); buf + Header(ca) + Encode(CertSections(s, ids))
  }

  lemma {:induction false} SizeStrings(ss: seq<Section>, kind: Byte, ids: seq<Bytes>)
    requires AllStrings(ids)
    ensures Size(ss + StringSection(kind, ids)) == Size(ss) + Size(StringSection(kind, ids))
  {
    var last := StringSection(kind, ids);
    if ids != [] {
      SizeSnoc(ss, last[0]);
      SizeSnoc([], last[0]);
      assert [] + last == last;
    } else {
      assert ss + last == ss;
    }
  }

  lemma EncodeStrings(header: Bytes, buf: Bytes, buf': Bytes, ss: seq<Section>, kind: Byte, ids: seq<Bytes>)
    requires AllStrings(ids) && Output(header, buf, ss) && Output(buf, buf', StringSection(kind, ids))
    ensures Output(header, buf', ss + StringSection(kind, ids))
  {
    var last := StringSection(kind, ids);
    if ids != [] {
      EncodeSnoc(header, ss, last[0]);
      EncodeSnoc(buf, [], last[0]);
      assert [] + last == last && buf + Encode([]) == buf;
    } else {
      assert ss + last == ss && buf + Encode(last) == buf;
    }
  }

  /** revoked_certs_generate: when it succeeds, and what it appends. */
  method RevokedCertsGenerate(buf: Bytes, ca: Bytes, s: seq<Range>, ids: seq<Bytes>) returns (r: Result<Bytes>)
    requires Stored(s) && |buf| <= SSHBUF_SIZE_MAX
    ensures r.Ok? <==> CertsFit(buf, ca, s, ids)
    ensures r.Ok? ==> r.value == Generated(buf, ca, s, ids)
  {
    hide SerialsFit;
    hide SerialSections;
    hide StringBytes;
    if !StringFits(ca) { return Err(NoBufferSpace); }
    var x := Put(buf, StringBytes(ca));
    if x.Err? { return x; }
    x := Put(x.value, StringBytes([]));
    if x.Err? { return x; }
    var header, gaveUp := x.value, false;
    Assoc(buf, StringBytes(ca), StringBytes([]));
    x, gaveUp := GenerateSerials(header, s);
    if x.Err? || gaveUp {
      if Stop(s, 0) == |s| && AllStrings(ids) { SizeStrings(SerialSections(s), KEY_ID, ids); }
      if Stop(s, 0) < |s| { assert SerialSections(s) + [] == SerialSections(s); }
      return x;
    }
    OutputSize(header, x.value, SerialSections(s));
    if AllStrings(ids) { SizeStrings(SerialSections(s), KEY_ID, ids); }
    r := GenerateStrings(x.value, KEY_ID, ids);
    if r.Ok? { EncodeStrings(header, x.value, r.value, SerialSections(s), KEY_ID, ids); }
  }

  lemma {:induction false} OutputSize(header: Bytes, buf: Bytes, ss: seq<Section>)
    requires Output(header, buf, ss) && Size(ss) <= SSHBUF_SIZE_MAX
    ensures |buf| == |header| + Size(ss)
  {
    SizeIsLength(ss);
  }

  /** What it appends denotes the same serials and key IDs exactly when the serials are
      representable. */
  lemma {:induction false} CertSectionsDenote(s: seq<Range>, ids: seq<Bytes>)
    requires Stored(s) && SerialsFit(s) && AllStrings(ids) && forall i | 0 <= i < |ids| :: IsCString(ids[i])
    ensures ApplyAll(CertSections(s, ids), NOTHING) == Ok(Revoked(s, Elements(ids))) <==> Representable(s)
    ensures !Representable(s) && Stop(s, 0) == |s| ==> ApplyAll(CertSections(s, ids), NOTHING).Err?
    ensures !Representable(s) ==> Partial(s, CertSections(s, ids))
  {
    hide SerialsFit;
    hide SerialSections;
    hide StringBytes;
    hide StringFits;
    hide IsCString;
    SerialsDenote(s);
    var done := SerialSections(s);
    if Stop(s, 0) < |s| {
      assert done + [] == done;
    } else {
      ReadKeyIds(s, ids, done);
    }
  }

  lemma {:induction false} ReadKeyIds(s: seq<Range>, ids: seq<Bytes>, done: seq<Section>)
    requires Stored(s) && Flushed(s, |s|, done)
    requires AllStrings(ids) && forall i | 0 <= i < |ids| :: IsCString(ids[i])
    ensures var all := done + StringSection(KEY_ID, ids);
            if Representable(s) then ApplyAll(all, NOTHING) == Ok(Revoked(s, Elements(ids)))
            else ApplyAll(all, NOTHING).Err?
  {
    assert s[..|s|] == s;
    if ids == [] {
      assert Elements(ids) == {};
      assert done + StringSection(KEY_ID, ids) == done;
    } else {
      var last := Section(KEY_ID, StringsBody(ids, |ids|));
      assert (done + [last])[..|done|] == done;
      ParseKeyIdBody(ids, |ids|, [], Revoked(s, {}));
      assert StringsBody(ids, |ids|) + [] == StringsBody(ids, |ids|);
      assert ids[..|ids|] == ids && {} + Elements(ids) == Elements(ids);
    }
  }

  /** Reading the header, the sections that follow it, and whatever comes after them. */
  lemma {:induction false} ParseGenerated(ca: Bytes, done: seq<Section>, rest: Bytes, accepts: Bytes -> bool,
                                          certs: Certs)
    requires StringFits(ca) && Sections(done) && accepts(ca)
    ensures ParseCerts(Header(ca) + (Encode(done) + rest), accepts, certs)
            == match ApplyAll(done, Lookup(certs, ca))
               case Err(e) => Err(e)
               case Ok(rc) => match ParseSections(rest, rc)
                              case Ok(rc') => Ok(Update(certs, ca, rc'))
                              case Err(e) => Err(e)
  {
    var tail := Encode(done) + rest;
    Assoc(StringBytes(ca), StringBytes([]), tail);
    StringRoundTrip(ca, StringBytes([]) + tail);
    StringRoundTrip([], tail);
    ParseEncoded(done, rest, Lookup(certs, ca));
  }

  /** The bytes after a certificate section of another CA are never taken for a section. */
  lemma {:induction false} HeaderIsNoSection(ca: Bytes, rest: Bytes, rc: Revoked)
    requires |ca| < SSHBUF_SIZE_MAX
    ensures ParseSections(Header(ca) + rest, rc).Err?
  {
    var buf := Header(ca) + rest;
    BigEndianHead(|ca|);
    assert buf[0] == U32Bytes(|ca|)[0] < LIST;
  }

  lemma BigEndianHead(n: U32)
    ensures U32Bytes(n)[0] == n / 0x100_0000
  {
    assert BigEndian(n / 256 / 256 / 256, 1) == [] + [n / 256 / 256 / 256 % 256];
    assert BigEndian(n / 256 / 256, 2)[0] == BigEndian(n / 256 / 256 / 256, 1)[0];
    assert BigEndian(n / 256, 3)[0] == BigEndian(n / 256 / 256, 2)[0];
    assert BigEndian(n, 4)[0] == BigEndian(n / 256, 3)[0];
  }

  // ----- Sets that are written but not read

  const TWO_RANGES := [Range(1, 1000), Range(5000, 6000)]

  lemma TwoRangesPlan()
    ensures Stored(TWO_RANGES)
    ensures Plan(TWO_RANGES, 1) == Open(RANGE, 0) && Plan(TWO_RANGES, 2) == Open(RANGE, 0)
    ensures !Starts(TWO_RANGES, 1) && Closes(TWO_RANGES, 1) && !Closes(TWO_RANGES, 0)
  {
    var s := TWO_RANGES;
    assert Plan(s, 0) == Open(0, 0);
    assert Next(s, 0, 0) == Choice(RANGE, false);
    assert Next(s, 1, RANGE) == Choice(RANGE, false);
  }

  lemma TwoRangesFit()
    requires Stored(TWO_RANGES) && Plan(TWO_RANGES, 1) == Open(RANGE, 0) && Plan(TWO_RANGES, 2) == Open(RANGE, 0)
    ensures Stop(TWO_RANGES, 0) == 2 && SerialsFit(TWO_RANGES) && !Representable(TWO_RANGES)
  {
    hide Plan;
    assert !GivesUpAt(TWO_RANGES, 0) && !GivesUpAt(TWO_RANGES, 1);
    assert !StepFits(TWO_RANGES, 1);
  }

  lemma {:induction false} TwoRangesSize(s: seq<Range>)
    requires |s| == 2 && Stored(s) && Plan(s, 1) == Open(RANGE, 0) && Plan(s, 2) == Open(RANGE, 0) && Stop(s, 0) == 2
    requires !Starts(s, 1) && Closes(s, 1)
    ensures Size(SerialSections(s)) == 58
  {
    hide Plan;
    hide Starts;
    hide Stop;
    hide RangeBytes;
    hide Emit;
    RangeEmit(s);
    var e1, e2 := Emit(s, 1), Emit(s, 2);
    SizeSnoc([], Section(RANGE, e1.sect));
    assert e2.done == [] + [Section(RANGE, e1.sect)];
    SizeSnoc(e2.done, Section(RANGE, e2.sect));
  }

  lemma {:induction false} RangeEmit(s: seq<Range>)
    requires |s| == 2 && Stored(s) && Plan(s, 1) == Open(RANGE, 0) && Plan(s, 2) == Open(RANGE, 0)
    requires !Starts(s, 1) && Closes(s, 1)
    ensures Emit(s, 1).done == [] && |Emit(s, 1).sect| == 16
    ensures Emit(s, 2).done == [Section(RANGE, Emit(s, 1).sect)] && |Emit(s, 2).sect| == 32
  {
    hide Plan;
    hide RangeBytes;
    RangeLength(s[0]);
    RangeLength(s[1]);
    assert Starts(s, 0);
  }

  /** Two long runs far apart are both written as ranges, with success, and cannot be read. */
  lemma TwoRangesAreLost()
    ensures Stored(TWO_RANGES) && SerialsFit(TWO_RANGES) && Stop(TWO_RANGES, 0) == |TWO_RANGES|
    ensures Size(SerialSections(TWO_RANGES)) == 58 && !Representable(TWO_RANGES)
  {
    hide Plan;
    hide Starts;
    hide Stop;
    hide SerialsFit;
    hide Representable;
    hide Stored;
    TwoRangesPlan();
    TwoRangesFit();
    TwoRangesSize(TWO_RANGES);
  }

  lemma RangeLength(r: Range)
    ensures |RangeBytes(r)| == 16
  {
  }

  /** Pairs of serials with gaps of 61 between them, which all go into one bitmap. */
  function Pairs(n: nat): seq<Range>
    requires n <= MAX_PAIRS
  {
    seq(n, i requires 0 <= i < n => Range(1 + 63 * i, 2 + 63 * i))
  }

  const MAX_PAIRS: nat := 0x100_0000_0000

  /** The last of them that a bitmap takes. */
  const LAST_PAIR: nat := 34087042

  /** With 131 pairs the bitmap has exactly 8192 bits. */
  function WideBitmap(): seq<Range> { Pairs(131) }

  lemma PairsAreStored(n: nat)
    requires n <= MAX_PAIRS
    ensures Stored(Pairs(n))
  {
  }

  lemma PairsChoice(n: nat, i: nat)
    requires i < n <= MAX_PAIRS && Stored(Pairs(n))
    ensures Next(Pairs(n), i, if i == 0 then 0 else BITMAP) == Choice(BITMAP, false)
  {
  }

  lemma {:induction false} PairsPlan(n: nat, i: nat)
    requires 0 < i <= n <= MAX_PAIRS && Stored(Pairs(n))
    ensures Plan(Pairs(n), i) == Open(BITMAP, 1) && (i > 1 ==> !Starts(Pairs(n), i - 1))
  {
    hide Next;
    hide Stored;
    var s := Pairs(n);
    PairsChoice(n, i - 1);
    if i == 1 {
      assert Plan(s, 0) == Open(0, 0);
    } else {
      PairsPlan(n, i - 1);
    }
  }

  lemma {:induction false} PairsEmit(n: nat, i: nat)
    requires 0 < i <= n <= MAX_PAIRS && Stored(Pairs(n))
    ensures Emit(Pairs(n), i).done == [] && |Emit(Pairs(n), i).sect| == 8
  {
    hide ChooseNextState;
    hide Pairs;
    hide Stored;
    hide BitmapWith;
    hide Plan;
    PairsPlan(n, i);
    if i > 1 { PairsEmit(n, i - 1); }
  }

  lemma {:induction false} PairsContinue(n: nat, i: nat)
    requires 0 < i <= n <= MAX_PAIRS && Stored(Pairs(n))
    ensures Plan(Pairs(n), i) == Open(BITMAP, 1)
    ensures i < n ==> !Closes(Pairs(n), i)
    ensures GivesUpAt(Pairs(n), i - 1) <==> i - 1 > LAST_PAIR
  {
    hide Plan;
    hide Starts;
    hide Stored;
    PairsPlan(n, i);
    if i < n { PairsPlan(n, i + 1); }
  }

  lemma PairsStop(n: nat)
    requires 0 < n <= MAX_PAIRS && Stored(Pairs(n))
    ensures Stop(Pairs(n), 0) == if n <= LAST_PAIR + 1 then n else LAST_PAIR + 1
  {
    hide GivesUpAt;
    hide Stop;
    hide Stored;
    var s := Pairs(n);
    forall m | 0 <= m < n ensures GivesUpAt(s, m) <==> m > LAST_PAIR { PairsContinue(n, m + 1); }
    if n > LAST_PAIR + 1 { assert GivesUpAt(s, LAST_PAIR + 1); }
  }

  lemma PairsFit(n: nat)
    requires 0 < n <= MAX_PAIRS && Stored(Pairs(n))
    ensures SerialsFit(Pairs(n)) <==> n <= 131 || n > LAST_PAIR + 1
  {
    hide Plan;
    hide Closes;
    hide Stop;
    hide Stored;
    var s := Pairs(n);
    PairsStop(n);
    forall i | 0 < i <= n
      ensures Plan(s, i) == Open(BITMAP, 1) && (i < n ==> !Closes(s, i)) && s[i - 1].hi == 2 + 63 * (i - 1)
    {
      PairsContinue(n, i);
    }
    if n <= LAST_PAIR + 1 { assert Plan(s, n).state == BITMAP && Stop(s, 0) == n == |s|; }
  }

  lemma PairsRepresentable(n: nat)
    requires 0 < n <= MAX_PAIRS && Stored(Pairs(n))
    ensures Representable(Pairs(n)) <==> n <= 130
  {
    hide Plan;
    hide Stored;
    var s := Pairs(n);
    assert Plan(s, 0).state == 0;
    forall i | 0 < i <= n ensures Plan(s, i) == Open(BITMAP, 1) { PairsPlan(n, i); }
    if n > 130 {
      assert s[130] == Range(8191, 8192);
      assert !StepFits(s, 130);
    }
  }

  /** What becomes of `n` pairs: up to 130 are written and read back; the bitmap of 131 is written
      and cannot be read; more cannot be written, until there are so many that the writer gives
      up and reports success without having written anything. */
  lemma PairsFate(n: nat)
    requires 0 < n <= MAX_PAIRS
    ensures var s := Pairs(n);
            && Stored(s) && (Representable(s) <==> n <= 130) && (SerialsFit(s) <==> n <= 131 || n > LAST_PAIR + 1)
            && (Stop(s, 0) == |s| <==> n <= LAST_PAIR + 1) && (n > LAST_PAIR + 1 ==> SerialSections(s) == [])
  {
    hide Representable;
    hide SerialsFit;
    hide Stop;
    hide Stored;
    hide Emit;
    PairsAreStored(n);
    PairsRepresentable(n);
    PairsFit(n);
    PairsStop(n);
    if n > LAST_PAIR + 1 { PairsEmit(n, LAST_PAIR + 1); }
  }

  lemma WideSize()
    requires Stored(Pairs(131)) && Stop(Pairs(131), 0) == 131
    ensures Size(SerialSections(Pairs(131))) <= 1100
  {
    hide Plan;
    hide Emit;
    hide NumBits;
    hide BignumBody;
    hide Stop;
    hide Pairs;
    hide Stored;
    var s := Pairs(131);
    PairsPlan(131, 131);
    PairsEmit(131, 131);
    WideLast();
    EmitBits(s, 131);
    var e := Emit(s, 131);
    BignumBodyLength(e.bitmap);
    SizeSnoc([], Section(BITMAP, Finished(BITMAP, e.sect, e.bitmap)));
    assert SerialSections(s) == [] + [Section(BITMAP, Finished(BITMAP, e.sect, e.bitmap))];
  }

  lemma WideLast()
    ensures |WideBitmap()| == 131 && WideBitmap()[130] == Range(8191, 8192)
  {
  }

  /** A bitmap of exactly 8192 bits is written with success, and cannot be read. */
  lemma WideBitmapIsLost()
    ensures Stored(WideBitmap()) && SerialsFit(WideBitmap()) && Stop(WideBitmap(), 0) == |WideBitmap()|
    ensures Size(SerialSections(WideBitmap())) <= 1100 && !Representable(WideBitmap())
  {
    hide Pairs;
    hide SerialsFit;
    hide Representable;
    hide Stop;
    hide Stored;
    PairsFate(131);
    WideLast();
    WideSize();
  }

  /** One serial is one list section. */
  lemma OneSerial(x: U64)
    requires x > 0
    ensures Stored([Range(x, x)]) && SerialsFit([Range(x, x)]) && Stop([Range(x, x)], 0) == 1
    ensures Size(SerialSections([Range(x, x)])) == 13 && Representable([Range(x, x)])
  {
    var s := [Range(x, x)];
    assert Plan(s, 0) == Open(0, 0);
    assert Next(s, 0, 0) == Choice(LIST, false);
    assert Plan(s, 1) == Open(LIST, 0);
    RunBytesLength(x, 1);
    var last := Section(LIST, Emit(s, 1).sect);
    SizeSnoc([], last);
    assert !GivesUpAt(s, 0) && Emit(s, 1).done == [];
    assert SerialSections(s) == Flush(s, 1, Emit(s, 1)) == [] + [last];
  }
}
