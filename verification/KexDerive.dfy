/** The exchange hash of ssh/kexdh.c and the key derivation of ssh/kex.c (sections 7.2 and 8 of
    RFC 4253).  The hash functions are parameters. */
module KexDerive {
  import opened Wire
  import opened WireStrings

  // ----- The exchange hash

  const MSG_KEXINIT: Byte := 20

  /** What is hashed. */
  datatype Transcript = Transcript(clientVersion: Bytes, serverVersion: Bytes, clientKexinit: Bytes,
                                   serverKexinit: Bytes, hostKey: Bytes, clientPub: nat, serverPub: nat, secret: nat)

  predicate CanEncode(t: Transcript)
  {
    && StringFits(t.clientVersion) && StringFits(t.serverVersion) && StringFits(t.hostKey)
    && StringFits([MSG_KEXINIT] + t.clientKexinit) && StringFits([MSG_KEXINIT] + t.serverKexinit)
    && CanPutBignum(t.clientPub) && CanPutBignum(t.serverPub) && CanPutBignum(t.secret)
  }

  /** The strings of the encoding: each KEXINIT gets its message header back. */
  function Fields(t: Transcript): seq<Bytes>
  {
    [t.clientVersion, t.serverVersion, [MSG_KEXINIT] + t.clientKexinit, [MSG_KEXINIT] + t.serverKexinit,
     t.hostKey, BignumBody(t.clientPub), BignumBody(t.serverPub), BignumBody(t.secret)]
  }

  /** The buffer that kex_dh_hash fills. */
  function Encode(t: Transcript): Bytes
    requires CanEncode(t)
  {
    StringBytes(t.clientVersion) + StringBytes(t.serverVersion)
    + U32Bytes(|t.clientKexinit| + 1) + [MSG_KEXINIT] + t.clientKexinit
    + U32Bytes(|t.serverKexinit| + 1) + [MSG_KEXINIT] + t.serverKexinit
    + StringBytes(t.hostKey) + BignumBytes(t.clientPub) + BignumBytes(t.serverPub) + BignumBytes(t.secret)
  }

  /** kex_dh_hash. */
  function DhHash(h: Bytes -> Bytes, t: Transcript): Result<Bytes>
  {
    if !CanEncode(t) then Err(InvalidArgument)
    else if |Encode(t)| > SSHBUF_SIZE_MAX then Err(NoBufferSpace)
    else Ok(h(Encode(t)))
  }

  lemma FieldsFit(t: Transcript)
    requires CanEncode(t)
    ensures Encodable(Fields(t))
  {
    BignumBodyLength(t.clientPub);
    BignumBodyLength(t.serverPub);
    BignumBodyLength(t.secret);
  }

  /** The encoding is eight strings one after the other. */
  lemma EncodeIsStrings(t: Transcript)
    requires CanEncode(t)
    ensures Encodable(Fields(t)) && Encode(t) == NamesBytes(Fields(t))
  {
    hide BignumBody;
    hide StringBytes;
    FieldsFit(t);
    var f := Fields(t);
    KexinitString(t.clientKexinit);
    KexinitString(t.serverKexinit);
    EightStrings(f);
  }

  lemma KexinitString(m: Bytes)
    requires StringFits([MSG_KEXINIT] + m)
    ensures StringBytes([MSG_KEXINIT] + m) == U32Bytes(|m| + 1) + [MSG_KEXINIT] + m
  {
  }

  lemma {:induction false} EightStrings(f: seq<Bytes>)
    requires |f| == 8 && Encodable(f)
    ensures NamesBytes(f) == StringBytes(f[0]) + StringBytes(f[1]) + StringBytes(f[2]) + StringBytes(f[3])
                             + StringBytes(f[4]) + StringBytes(f[5]) + StringBytes(f[6]) + StringBytes(f[7])
  {
    hide StringBytes;
    hide NamesBytes;
    NamesOfNone(f);
    NamesSnoc(f, 0);
    NamesSnoc(f, 1);
    NamesSnoc(f, 2);
    NamesSnoc(f, 3);
    NamesSnoc(f, 4);
    NamesSnoc(f, 5);
    NamesSnoc(f, 6);
    NamesSnoc(f, 7);
    assert f[..8] == f;
  }

  lemma NamesOfNone(f: seq<Bytes>)
    ensures NamesBytes(f[..0]) == []
  {
  }

  lemma BignumBodyInjective(a: nat, b: nat)
    requires BignumBody(a) == BignumBody(b)
    ensures a == b
  {
    BignumBodyValue(a);
    BignumBodyValue(b);
  }

  lemma BignumBodyValue(v: nat)
    ensures FromBigEndian(BignumBody(v)) == v
  {
    var len := NumBytes(v);
    NumBitsFits(v, len);
    BigEndianRoundTrip(v, len);
    LeadingZero(BigEndian(v, len));
  }

  /** Two exchanges that differ anywhere are hashed from different bytes. */
  lemma TranscriptInjective(t: Transcript, u: Transcript)
    requires CanEncode(t) && CanEncode(u) && Encode(t) == Encode(u)
    ensures t == u
  {
    hide Encode;
    hide BignumBody;
    EncodeIsStrings(t);
    EncodeIsStrings(u);
    StringsInjective(Fields(t), Fields(u));
    SameFields(t, u);
  }

  lemma SameFields(t: Transcript, u: Transcript)
    requires Fields(t) == Fields(u)
    ensures t == u
  {
    hide BignumBody;
    var f, g := Fields(t), Fields(u);
    assert f[0] == g[0] && f[1] == g[1] && f[4] == g[4];
    assert f[2][1..] == t.clientKexinit && g[2][1..] == u.clientKexinit;
    assert f[3][1..] == t.serverKexinit && g[3][1..] == u.serverKexinit;
    assert f[5] == g[5] && f[6] == g[6] && f[7] == g[7];
    BignumBodyInjective(t.clientPub, u.clientPub);
    BignumBodyInjective(t.serverPub, u.serverPub);
    BignumBodyInjective(t.secret, u.secret);
  }

  // ----- Key derivation

  /** The hash function of the method, with the size of its digests. */
  datatype Md = Md(size: nat, digest: Bytes -> Bytes)

  ghost predicate Sized(md: Md) { md.size > 0 && forall x: Bytes :: |md.digest(x)| == md.size }

  /** What each block of a key is hashed from, up to the part that differs.  `bug` is
      SSH_BUG_DERIVEKEY. */
  function Prefix(bug: bool, secret: nat, hash: Bytes): Bytes
    requires CanPutBignum(secret)
  {
    (if bug then [] else BignumBytes(secret)) + hash
  }

  function FirstBlock(md: Md, prefix: Bytes, id: Byte, session: Bytes): Bytes { md.digest(prefix + [id] + session) }

  /** Blocks are added until there are `need` bytes. */
  ghost function Expand(md: Md, prefix: Bytes, key: Bytes, need: nat): (r: Bytes)
    requires Sized(md)
    decreases if need > |key| then need - |key| else 0
  {
    if need > |key| then Expand(md, prefix, key + md.digest(prefix + key), need) else key
  }

  ghost function DerivedKey(md: Md, prefix: Bytes, id: Byte, session: Bytes, need: nat): Bytes
    requires Sized(md)
  {
    Expand(md, prefix, FirstBlock(md, prefix, id, session), need)
  }

  /** derive_key. */
  method DeriveKey(md: Md, bug: bool, id: Byte, need: nat, hash: Bytes, secret: nat, session: Bytes)
    returns (r: Result<Bytes>)
    requires Sized(md)
    ensures r == if CanPutBignum(secret) then Ok(DerivedKey(md, Prefix(bug, secret, hash), id, session, need))
                 else Err(InvalidArgument)
  {
    if !CanPutBignum(secret) { return Err(InvalidArgument); }
    var prefix := Prefix(bug, secret, hash);
    var digest := md.digest(prefix + [id] + session);
    while need > |digest|
      invariant Expand(md, prefix, digest, need) == DerivedKey(md, prefix, id, session, need)
      decreases if need > |digest| then need - |digest| else 0
    {
      digest := digest + md.digest(prefix + digest);
    }
    return Ok(digest);
  }

  /** Block `i` is the hash of the blocks before it. */
  ghost predicate Chained(md: Md, prefix: Bytes, key: Bytes, i: nat)
    requires i * md.size + md.size <= |key|
  {
    key[i * md.size..i * md.size + md.size] == md.digest(prefix + key[..i * md.size])
  }

  lemma {:induction false} ExpandExtends(md: Md, prefix: Bytes, key: Bytes, need: nat)
    requires Sized(md)
    ensures key <= Expand(md, prefix, key, need)
    ensures |key| <= |Expand(md, prefix, key, need)| && need <= |Expand(md, prefix, key, need)|
    ensures |Expand(md, prefix, key, need)| < need + md.size || Expand(md, prefix, key, need) == key
    decreases if need > |key| then need - |key| else 0
  {
    if need > |key| {
      var more := key + md.digest(prefix + key);
      ExpandExtends(md, prefix, more, need);
      assert key <= more;
    }
  }

  lemma {:induction false} ExpandChains(md: Md, prefix: Bytes, key: Bytes, n: nat, need: nat, i: nat)
    requires Sized(md) && |key| == n * md.size && n <= i
    requires i * md.size + md.size <= |Expand(md, prefix, key, need)|
    ensures Chained(md, prefix, Expand(md, prefix, key, need), i)
    decreases if need > |key| then need - |key| else 0
  {
    var r := Expand(md, prefix, key, need);
    if need > |key| {
      var more := key + md.digest(prefix + key);
      assert |more| == (n + 1) * md.size;
      if n == i {
        ExpandExtends(md, prefix, more, need);
        assert r[..|key|] == more[..|key|] == key;
        assert r[|key|..|more|] == more[|key|..|more|] == md.digest(prefix + key);
      } else {
        ExpandChains(md, prefix, more, n + 1, need, i);
      }
    } else {
      Monotone(n, i, md.size);
      assert false;
    }
  }

  lemma Monotone(n: nat, i: nat, size: nat)
    requires n <= i && size > 0
    ensures n * size < i * size + size
  {
    assert (i - n) * size >= 0;
  }

  /** A derived key is long enough, starts with K1, and every later block is the hash of all
      blocks before it: section 7.2 of RFC 4253. */
  lemma DerivedKeyShape(md: Md, prefix: Bytes, id: Byte, session: Bytes, need: nat)
    requires Sized(md)
    ensures var key := DerivedKey(md, prefix, id, session, need);
            && |key| >= need && |key| >= md.size && (|key| < need + md.size || |key| == md.size)
            && key[..md.size] == md.digest(prefix + [id] + session)
            && forall i: nat | 1 <= i && i * md.size + md.size <= |key| :: Chained(md, prefix, key, i)
  {
    var first := FirstBlock(md, prefix, id, session);
    var key := Expand(md, prefix, first, need);
    ExpandExtends(md, prefix, first, need);
    forall i: nat | 1 <= i && i * md.size + md.size <= |key| ensures Chained(md, prefix, key, i) {
      ExpandChains(md, prefix, first, 1, need, i);
    }
  }
}
