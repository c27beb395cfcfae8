/** Algorithm negotiation of ssh/kex.c (section 7.1 of RFC 4253).  The tables of ciphers, MACs,
    key exchange methods and host key types are parameters. */
module KexNegotiate {
  import opened Wire
  import opened Match
  import opened WireStrings

  const COOKIE_LEN: nat := 16
  const PROPOSAL_MAX: nat := 10

  const KEX_ALGS := 0
  const SERVER_HOST_KEY_ALGS := 1
  const ENC_ALGS_CTOS := 2
  const ENC_ALGS_STOC := 3
  const MAC_ALGS_CTOS := 4
  const MAC_ALGS_STOC := 5
  const COMP_ALGS_CTOS := 6
  const COMP_ALGS_STOC := 7

  // ----- Proposals as bytes

  type Proposal = p: seq<Bytes> | |p| == PROPOSAL_MAX witness [[], [], [], [], [], [], [], [], [], []]

  function Zeros(n: nat): (b: Bytes)
    ensures |b| == n
  {
    seq(n, _ => 0)
  }

  /** No first packet follows; the reserved word is zero. */
  function Trailer(): Bytes { [0] + U32Bytes(0) }

  /** A KEXINIT payload. */
  function Kexinit(cookie: Bytes, names: seq<Bytes>): Bytes
    requires Encodable(names)
  {
    cookie + NamesBytes(names) + Trailer()
  }

  /** The next `n` strings of a buffer. */
  function ReadNames(b: Bytes, n: nat): (r: Result<Read<seq<Bytes>>>)
    ensures r.Ok? ==> |r.value.value| == n
  {
    if n == 0 then Ok(Read([], b))
    else
      var s :- GetCString(b);
      var t :- ReadNames(s.rest, n - 1);
      Ok(Read([s.value] + t.value, t.rest))
  }

  /** kex_buf2prop without the first_kex_follows word. */
  function Buf2Prop(raw: Bytes): Result<Proposal>
  {
    if |raw| < COOKIE_LEN then Err(MessageIncomplete)
    else
      var names :- ReadNames(raw[COOKIE_LEN..], PROPOSAL_MAX);
      var v :- GetU8(names.rest);
      var w :- GetU32(v.rest);
      Ok(names.value)
  }

  // ----- The loops

  function Prepend(done: seq<Bytes>, r: Result<Read<seq<Bytes>>>): Result<Read<seq<Bytes>>>
  {
    match r
    case Err(_) => r
    case Ok(x) => Ok(Read(done + x.value, x.rest))
  }

  /** The loop of kex_buf2prop. */
  method ReadNamesLoop(b0: Bytes, n: nat) returns (r: Result<Read<seq<Bytes>>>)
    ensures r == ReadNames(b0, n)
  {
    var names, b := [], b0;
    PrependNothing(ReadNames(b, n));
    for i := 0 to n
      invariant Prepend(names, ReadNames(b, n - i)) == ReadNames(b0, n)
    {
      PrependStep(names, b, n - i);
      var s :- GetCString(b);
      names, b := names + [s.value], s.rest;
    }
    assert names + [] == names;
    return Ok(Read(names, b));
  }

  lemma PrependNothing(r: Result<Read<seq<Bytes>>>)
    ensures Prepend([], r) == r
  {
    if r.Ok? { assert [] + r.value.value == r.value.value; }
  }

  lemma PrependStep(names: seq<Bytes>, b: Bytes, n: nat)
    requires n > 0
    ensures GetCString(b).Err? ==> Prepend(names, ReadNames(b, n)) == Err(GetCString(b).error)
    ensures GetCString(b).Ok? ==>
              Prepend(names, ReadNames(b, n)) ==
              Prepend(names + [GetCString(b).value.value], ReadNames(GetCString(b).value.rest, n - 1))
  {
    if GetCString(b).Ok? {
      var s := GetCString(b).value;
      var t := ReadNames(s.rest, n - 1);
      if t.Ok? { assert names + ([s.value] + t.value.value) == names + [s.value] + t.value.value; }
    }
  }

  method Buf2PropLoop(raw: Bytes) returns (r: Result<Proposal>)
    ensures r == Buf2Prop(raw)
  {
    if |raw| < COOKIE_LEN { return Err(MessageIncomplete); }
    var names :- ReadNamesLoop(raw[COOKIE_LEN..], PROPOSAL_MAX);
    var v :- GetU8(names.rest);
    var w :- GetU32(v.rest);
    return Ok(names.value);
  }

  predicate Sendable(names: seq<Bytes>)
  {
    Encodable(names) && |Kexinit(Zeros(COOKIE_LEN), names)| <= SSHBUF_SIZE_MAX
  }

  /** kex_prop2buf. */
  method Prop2Buf(prop: Proposal) returns (r: Result<Bytes>)
    ensures r == if Sendable(prop) then Ok(Kexinit(Zeros(COOKIE_LEN), prop)) else Err(NoBufferSpace)
  {
    hide NamesBytes;
    hide Encodable;
    var b := Zeros(COOKIE_LEN);
    b :- PutStrings(b, prop);
    b :- Put(b, [0]);
    b :- Put(b, U32Bytes(0));
    assert b == Kexinit(Zeros(COOKIE_LEN), prop);
    return Ok(b);
  }

  // ----- Round trip

  lemma {:induction false} ReadOneName(b: Bytes, name: Bytes, rest: Bytes, names: seq<Bytes>, end: Bytes)
    requires GetCString(b) == Ok(Read(name, rest)) && ReadNames(rest, |names|) == Ok(Read(names, end))
    ensures ReadNames(b, |names| + 1) == Ok(Read([name] + names, end))
  {
    hide GetCString;
  }

  lemma {:induction false} NamesRoundTrip(names: seq<Bytes>, rest: Bytes)
    requires CStrings(names)
    ensures ReadNames(NamesBytes(names) + rest, |names|) == Ok(Read(names, rest))
  {
    hide GetCString;
    hide StringBytes;
    hide IsCString;
    hide StringFits;
    if names == [] {
      assert NamesBytes(names) + rest == rest;
    } else {
      hide ReadNames;
      hide NamesBytes;
      var more := NamesBytes(names[1..]) + rest;
      FirstName(names, rest);
      CStringRoundTrip(names[0], more);
      NamesRoundTrip(names[1..], rest);
      ReadOneName(StringBytes(names[0]) + more, names[0], more, names[1..], rest);
      assert [names[0]] + names[1..] == names;
    }
  }

  /** What is proposed is what the peer reads, whatever the cookie. */
  lemma ProposalRoundTrip(cookie: Bytes, prop: Proposal)
    requires |cookie| == COOKIE_LEN && CStrings(prop)
    ensures Buf2Prop(Kexinit(cookie, prop)) == Ok(prop)
  {
    hide ReadNames;
    hide NamesBytes;
    var raw := Kexinit(cookie, prop);
    assert raw[COOKIE_LEN..] == NamesBytes(prop) + Trailer();
    NamesRoundTrip(prop, Trailer());
    U32RoundTrip(0, []);
    assert Trailer()[1..] == U32Bytes(0) + [];
  }

  // ----- Choosing

  datatype Cipher = Cipher(ivLen: nat, keyLen: nat, blockSize: nat, authLen: nat)

  /** What a key exchange method and a host key type are, in the tables of the implementation. */
  datatype Tables = Tables(
    cipher: string -> Option<Cipher>,
    macKeyLen: string -> Option<nat>,
    kexType: string -> Option<int>,
    hostkeyType: string -> Option<int>)

  /** struct newkeys: the names and sizes chosen for one direction, and its keys. */
  datatype NewKeys = NewKeys(enc: string, cipher: Cipher, mac: Option<string>, macKeyLen: nat, comp: string,
                             iv: Bytes, key: Bytes, macKey: Bytes)

  datatype Conf = Conf(inKeys: NewKeys, outKeys: NewKeys, name: string, kexType: int, hostkeyType: int, need: nat)

  function Pick(cprop: Proposal, sprop: Proposal, i: nat): Option<string>
    requires i < PROPOSAL_MAX
  {
    Chosen(Text(cprop[i]), Text(sprop[i]))
  }

  function ToResult<T>(x: Option<T>, e: Error): Result<T>
  {
    match x
    case None => Err(e)
    case Some(v) => Ok(v)
  }

  /** choose_mac; with authenticated encryption there is none.  `bug` is SSH_BUG_HMAC. */
  function ChooseMac(t: Tables, bug: bool, cprop: Proposal, sprop: Proposal, ctos: bool): Result<(string, nat)>
  {
    var name :- ToResult(Pick(cprop, sprop, if ctos then MAC_ALGS_CTOS else MAC_ALGS_STOC), NoMacAlgMatch);
    var len :- ToResult(t.macKeyLen(name), InternalError);
    Ok((name, if bug then 16 else len))
  }

  predicate KnownCompression(name: string) { name == "zlib@openssh.com" || name == "zlib" || name == "none" }

  /** One round of the loop in kex_choose_conf. */
  function ChooseMode(t: Tables, bug: bool, cprop: Proposal, sprop: Proposal, ctos: bool): Result<NewKeys>
  {
    var enc :- ToResult(Pick(cprop, sprop, if ctos then ENC_ALGS_CTOS else ENC_ALGS_STOC), NoCipherAlgMatch);
    var cipher :- ToResult(t.cipher(enc), InternalError);
    var mac :- if cipher.authLen == 0 then ChooseMac(t, bug, cprop, sprop, ctos) else Ok(("", 0));
    var comp :- ToResult(Pick(cprop, sprop, if ctos then COMP_ALGS_CTOS else COMP_ALGS_STOC), NoCompressAlgMatch);
    if !KnownCompression(comp) then Err(InternalError)
    else Ok(NewKeys(enc, cipher, if cipher.authLen == 0 then Some(mac.0) else None, mac.1, comp, [], [], []))
  }

  function Max(a: nat, b: nat): nat { if a < b then b else a }

  function ModeNeed(k: NewKeys): nat
  {
    Max(Max(k.cipher.keyLen, k.cipher.blockSize), Max(k.cipher.ivLen, k.macKeyLen))
  }

  function Settle(t: Tables, cprop: Proposal, sprop: Proposal, inKeys: NewKeys, outKeys: NewKeys): Result<Conf>
  {
    var name :- ToResult(Pick(cprop, sprop, KEX_ALGS), InternalError);
    var kexType :- ToResult(t.kexType(name), InternalError);
    var host :- ToResult(Pick(cprop, sprop, SERVER_HOST_KEY_ALGS), NoHostkeyAlgMatch);
    var hostkeyType :- ToResult(t.hostkeyType(host), InternalError);
    Ok(Conf(inKeys, outKeys, name, kexType, hostkeyType, Max(ModeNeed(inKeys), ModeNeed(outKeys))))
  }

  /** kex_choose_conf: the incoming direction first. */
  function Choose(t: Tables, bug: bool, server: bool, cprop: Proposal, sprop: Proposal): Result<Conf>
  {
    var inKeys :- ChooseMode(t, bug, cprop, sprop, server);
    var outKeys :- ChooseMode(t, bug, cprop, sprop, !server);
    Settle(t, cprop, sprop, inKeys, outKeys)
  }

  function ChooseConf(t: Tables, bug: bool, server: bool, my: Bytes, peer: Bytes): Result<Conf>
  {
    var mine :- Buf2Prop(my);
    var theirs :- Buf2Prop(peer);
    if server then Choose(t, bug, true, theirs, mine) else Choose(t, bug, false, mine, theirs)
  }

  // ----- The loops of kex_choose_conf

  const MODE_IN := 0
  const MODE_OUT := 1

  /** The loop that takes the maximum over both directions. */
  method NeedLoop(newkeys: seq<NewKeys>) returns (need: nat)
    requires |newkeys| == 2
    ensures need == Max(ModeNeed(newkeys[MODE_IN]), ModeNeed(newkeys[MODE_OUT]))
  {
    need := 0;
    for mode := 0 to 2
      invariant need == if mode == 0 then 0 else if mode == 1 then ModeNeed(newkeys[MODE_IN])
                        else Max(ModeNeed(newkeys[MODE_IN]), ModeNeed(newkeys[MODE_OUT]))
    {
      var k := newkeys[mode];
      if need < k.cipher.keyLen { need := k.cipher.keyLen; }
      if need < k.cipher.blockSize { need := k.cipher.blockSize; }
      if need < k.cipher.ivLen { need := k.cipher.ivLen; }
      if need < k.macKeyLen { need := k.macKeyLen; }
    }
  }

  /** The loop over the directions, then the method and the host key. */
  method ChooseLoop(t: Tables, bug: bool, server: bool, cprop: Proposal, sprop: Proposal) returns (r: Result<Conf>)
    ensures r == Choose(t, bug, server, cprop, sprop)
  {
    hide ChooseMode;
    hide Pick;
    hide ModeNeed;
    var newkeys := [];
    for mode := 0 to 2
      invariant |newkeys| == mode
      invariant mode > 0 ==> ChooseMode(t, bug, cprop, sprop, server) == Ok(newkeys[MODE_IN])
      invariant mode > 1 ==> ChooseMode(t, bug, cprop, sprop, !server) == Ok(newkeys[MODE_OUT])
    {
      var ctos := (!server && mode == MODE_OUT) || (server && mode == MODE_IN);
      var k :- ChooseMode(t, bug, cprop, sprop, ctos);
      newkeys := newkeys + [k];
    }
    var name :- ToResult(Pick(cprop, sprop, KEX_ALGS), InternalError);
    var kexType :- ToResult(t.kexType(name), InternalError);
    var host :- ToResult(Pick(cprop, sprop, SERVER_HOST_KEY_ALGS), NoHostkeyAlgMatch);
    var hostkeyType :- ToResult(t.hostkeyType(host), InternalError);
    var need := NeedLoop(newkeys);
    return Ok(Conf(newkeys[MODE_IN], newkeys[MODE_OUT], name, kexType, hostkeyType, need));
  }

  /** kex_choose_conf as a whole. */
  method ChooseConfLoop(t: Tables, bug: bool, server: bool, my: Bytes, peer: Bytes) returns (r: Result<Conf>)
    ensures r == ChooseConf(t, bug, server, my, peer)
  {
    hide Buf2Prop;
    hide Choose;
    var mine :- Buf2PropLoop(my);
    var theirs :- Buf2PropLoop(peer);
    if server {
      r := ChooseLoop(t, bug, true, theirs, mine);
    } else {
      r := ChooseLoop(t, bug, false, mine, theirs);
    }
  }

  // ----- Agreement

  /** The other side of a configuration. */
  function Mirror(c: Conf): Conf { c.(inKeys := c.outKeys, outKeys := c.inKeys) }

  /** For any two KEXINITs, well formed or not: the two sides both fail, or both succeed with
      mirrored configurations. */
  lemma NegotiationAgrees(t: Tables, bug: bool, c: Bytes, s: Bytes)
    ensures ChooseConf(t, bug, false, c, s).Ok? <==> ChooseConf(t, bug, true, s, c).Ok?
    ensures ChooseConf(t, bug, false, c, s).Ok? ==>
              ChooseConf(t, bug, true, s, c).value == Mirror(ChooseConf(t, bug, false, c, s).value)
  {
    hide Buf2Prop;
    if Buf2Prop(c).Ok? && Buf2Prop(s).Ok? {
      ChooseAgrees(t, bug, Buf2Prop(c).value, Buf2Prop(s).value);
    }
  }

  lemma ChooseAgrees(t: Tables, bug: bool, c: Proposal, s: Proposal)
    ensures Choose(t, bug, false, c, s).Ok? <==> Choose(t, bug, true, c, s).Ok?
    ensures Choose(t, bug, false, c, s).Ok? ==>
              Choose(t, bug, true, c, s).value == Mirror(Choose(t, bug, false, c, s).value)
  {
    hide ChooseMode;
    hide Pick;
  }

  /** The name is the first in the client's list that is also among the server's. */
  ghost predicate ClientsFirst(c: Proposal, s: Proposal, i: nat, name: string)
    requires i < PROPOSAL_MAX
  {
    var items, proposals := Items(Text(c[i])), Proposals(Text(s[i]));
    exists k: nat | k < |items| ::
      items[k] == name && name in proposals && forall j | 0 <= j < k :: items[j] !in proposals
  }

  lemma PickIsClientsFirst(c: Proposal, s: Proposal, i: nat)
    requires i < PROPOSAL_MAX
    ensures Pick(c, s, i).Some? ==> ClientsFirst(c, s, i, Pick(c, s, i).value)
  {
    hide Items;
    hide Proposals;
    var items, proposals := Items(Text(c[i])), Proposals(Text(s[i]));
    var k := FirstCommon(items, proposals);
    assert k < |items| ==> items[k] in proposals;
  }

  /** What was chosen for one direction: its names are the client's first, its sizes those of the
      tables, and there is a MAC exactly when the cipher does not authenticate. */
  ghost predicate ModeIsClientsFirst(t: Tables, bug: bool, c: Proposal, s: Proposal, ctos: bool, k: NewKeys)
  {
    && ClientsFirst(c, s, if ctos then ENC_ALGS_CTOS else ENC_ALGS_STOC, k.enc) && t.cipher(k.enc) == Some(k.cipher)
    && (k.mac.Some? <==> k.cipher.authLen == 0)
    && (if k.mac.Some? then
          && ClientsFirst(c, s, if ctos then MAC_ALGS_CTOS else MAC_ALGS_STOC, k.mac.value)
          && t.macKeyLen(k.mac.value).Some? && k.macKeyLen == (if bug then 16 else t.macKeyLen(k.mac.value).value)
        else k.macKeyLen == 0)
    && ClientsFirst(c, s, if ctos then COMP_ALGS_CTOS else COMP_ALGS_STOC, k.comp)
  }

  lemma ModeChoice(t: Tables, bug: bool, c: Proposal, s: Proposal, ctos: bool)
    requires ChooseMode(t, bug, c, s, ctos).Ok?
    ensures ModeIsClientsFirst(t, bug, c, s, ctos, ChooseMode(t, bug, c, s, ctos).value)
  {
    hide Pick;
    hide ClientsFirst;
    PickIsClientsFirst(c, s, if ctos then ENC_ALGS_CTOS else ENC_ALGS_STOC);
    PickIsClientsFirst(c, s, if ctos then MAC_ALGS_CTOS else MAC_ALGS_STOC);
    PickIsClientsFirst(c, s, if ctos then COMP_ALGS_CTOS else COMP_ALGS_STOC);
  }

  /** Each direction is chosen from the lists of that direction, and every name, that of the host
      key included, is the first of the client's that the server also has. */
  lemma ChoiceIsClientsFirst(t: Tables, bug: bool, server: bool, c: Proposal, s: Proposal)
    requires Choose(t, bug, server, c, s).Ok?
    ensures var conf := Choose(t, bug, server, c, s).value;
            var (ctos, stoc) := if server then (conf.inKeys, conf.outKeys) else (conf.outKeys, conf.inKeys);
            && ModeIsClientsFirst(t, bug, c, s, true, ctos) && ModeIsClientsFirst(t, bug, c, s, false, stoc)
            && ClientsFirst(c, s, KEX_ALGS, conf.name) && t.kexType(conf.name) == Some(conf.kexType)
            && exists host ::
                 ClientsFirst(c, s, SERVER_HOST_KEY_ALGS, host) && t.hostkeyType(host) == Some(conf.hostkeyType)
  {
    hide Pick;
    hide ChooseMode;
    hide ModeIsClientsFirst;
    hide ClientsFirst;
    ModeChoice(t, bug, c, s, true);
    ModeChoice(t, bug, c, s, false);
    PickIsClientsFirst(c, s, KEX_ALGS);
    PickIsClientsFirst(c, s, SERVER_HOST_KEY_ALGS);
    assert t.hostkeyType(Pick(c, s, SERVER_HOST_KEY_ALGS).value).Some?;
  }

  /** Enough key material for everything in both directions, and no more than the largest. */
  lemma NeedIsLargest(t: Tables, bug: bool, server: bool, c: Proposal, s: Proposal)
    requires Choose(t, bug, server, c, s).Ok?
    ensures var conf := Choose(t, bug, server, c, s).value;
            && Suffices(conf.need, conf.inKeys) && Suffices(conf.need, conf.outKeys)
            && (Tight(conf.need, conf.inKeys) || Tight(conf.need, conf.outKeys))
  {
    hide ChooseMode;
    hide Pick;
  }

  predicate Suffices(need: nat, k: NewKeys)
  {
    need >= k.cipher.keyLen && need >= k.cipher.blockSize && need >= k.cipher.ivLen && need >= k.macKeyLen
  }

  predicate Tight(need: nat, k: NewKeys)
  {
    need == k.cipher.keyLen || need == k.cipher.blockSize || need == k.cipher.ivLen || need == k.macKeyLen
  }
}
