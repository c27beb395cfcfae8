/** Lists of strings as several fields of ssh pack them: one sshbuf_put_string after another. */
module WireStrings {
  import opened Wire

  predicate Encodable(names: seq<Bytes>) { forall i | 0 <= i < |names| :: StringFits(names[i]) }

  function NamesBytes(names: seq<Bytes>): Bytes
    requires Encodable(names)
  {
    if names == [] then [] else StringBytes(names[0]) + NamesBytes(names[1..])
  }

  ghost predicate CStrings(names: seq<Bytes>)
  {
    forall i | 0 <= i < |names| :: IsCString(names[i]) && StringFits(names[i])
  }

  lemma {:induction false} FirstName(names: seq<Bytes>, rest: Bytes)
    requires names != [] && CStrings(names)
    ensures NamesBytes(names) + rest == StringBytes(names[0]) + (NamesBytes(names[1..]) + rest)
  {
    hide StringBytes;
  }

  lemma {:induction false} NamesSnoc(names: seq<Bytes>, i: nat)
    requires i < |names| && Encodable(names[..i + 1])
    ensures Encodable(names[..i])
    ensures NamesBytes(names[..i + 1]) == NamesBytes(names[..i]) + StringBytes(names[i])
  {
    hide StringBytes;
    assert forall j | 0 <= j < i :: names[..i][j] == names[..i + 1][j];
    if i == 0 {
      assert names[..1][1..] == [];
    } else {
      var tail := names[1..];
      assert names[..i + 1][1..] == tail[..i] && names[..i][1..] == tail[..i - 1];
      NamesSnoc(tail, i - 1);
    }
  }

  lemma {:induction false} PrefixShorter(names: seq<Bytes>, i: nat)
    requires i <= |names| && Encodable(names) && Encodable(names[..i])
    ensures |NamesBytes(names[..i])| <= |NamesBytes(names)|
    decreases |names| - i
  {
    hide StringBytes;
    if i < |names| {
      assert names[..i + 1] == names[..i] + [names[i]];
      NamesSnoc(names, i);
      PrefixShorter(names, i + 1);
    } else {
      assert names[..i] == names;
    }
  }

  predicate AllFit(b: Bytes, names: seq<Bytes>) { Encodable(names) && |b| + |NamesBytes(names)| <= SSHBUF_SIZE_MAX }

  /** A string that does not fit, or not any more, makes the whole list too long. */
  lemma TooLong(b: Bytes, names: seq<Bytes>, i: nat)
    requires i < |names| && Encodable(names[..i])
    requires !StringFits(names[i]) || |b| + |NamesBytes(names[..i])| + |StringBytes(names[i])| > SSHBUF_SIZE_MAX
    ensures !AllFit(b, names)
  {
    hide StringBytes;
    if Encodable(names) {
      assert names[..i + 1] == names[..i] + [names[i]];
      NamesSnoc(names, i);
      PrefixShorter(names, i + 1);
    }
  }

  /** The loop that puts strings one after another. */
  method PutStrings(b0: Bytes, names: seq<Bytes>) returns (r: Result<Bytes>)
    requires |b0| <= SSHBUF_SIZE_MAX
    ensures r == if AllFit(b0, names) then Ok(b0 + NamesBytes(names)) else Err(NoBufferSpace)
  {
    hide StringFits;
    hide StringBytes;
    var b := b0;
    for i := 0 to |names|
      invariant Encodable(names[..i]) && b == b0 + NamesBytes(names[..i]) && |b| <= SSHBUF_SIZE_MAX
    {
      if !StringFits(names[i]) || |b + StringBytes(names[i])| > SSHBUF_SIZE_MAX { TooLong(b0, names, i); }
      b :- PutString(b, names[i]);
      NamesSnoc(names, i);
    }
    assert names[..|names|] == names;
    return Ok(b);
  }

  /** Lists of strings have different encodings. */
  lemma {:induction false} StringsInjective(f: seq<Bytes>, g: seq<Bytes>)
    requires |f| == |g| && Encodable(f) && Encodable(g) && NamesBytes(f) == NamesBytes(g)
    ensures f == g
  {
    hide StringBytes;
    hide GetString;
    if f != [] {
      StringRoundTrip(f[0], NamesBytes(f[1..]));
      StringRoundTrip(g[0], NamesBytes(g[1..]));
      StringsInjective(f[1..], g[1..]);
    }
  }
}
