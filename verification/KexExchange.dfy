/** A key exchange, from KEXINIT to NEWKEYS: ssh/kex.c, ssh/kexdhc.c and ssh/kexdhs.c with the
    Diffie-Hellman methods of section 8 of RFC 4253.  The tables, the host keys with their
    signatures, and the hash functions are parameters. */
module KexExchange {
  import opened Wire
  import opened Congruence
  import opened ModExp
  import opened WireStrings
  import opened KexNegotiate
  import opened KexDerive

  // ----- The state of one side

  datatype DhGroup = DhGroup(p: Modulus, g: nat)

  datatype Dh = Dh(group: DhGroup, priv: nat, pub: nat)

  datatype Kex = Kex(server: bool, clientVersion: Bytes, serverVersion: Bytes, my: Bytes, peer: Bytes,
                     initSent: bool, done: bool, conf: Option<Conf>, dh: Option<Dh>, sessionId: Option<Bytes>)

  /** Everything that is not in these files.  `hostBlob` gives the server's host key of a type,
      `blobType` what the client reads from a blob. */
  datatype Env = Env(tables: Tables, bugHmac: bool, bugDerive: bool, group: int -> Option<DhGroup>, md: int -> Md,
                     hostBlob: int -> Option<Bytes>, sign: (int, Bytes) -> Bytes,
                     blobType: Bytes -> Option<int>, trusted: Bytes -> bool, verify: (Bytes, Bytes, Bytes) -> bool,
                     sha1: Bytes -> Bytes)

  ghost predicate GoodEnv(env: Env) { forall t :: Sized(env.md(t)) }

  // ----- KEXINIT

  type Cookie = b: Bytes | |b| == COOKIE_LEN witness Zeros(COOKIE_LEN)

  /** kex_send_kexinit; the message sent is the `my` buffer. */
  function SendKexinit(k: Kex, cookie: Cookie): Result<Kex>
  {
    if k.initSent then Ok(k)
    else if |k.my| < COOKIE_LEN then Err(InvalidFormat)
    else Ok(k.(done := false, my := cookie + k.my[COOKIE_LEN..], initSent := true))
  }

  function SkipStrings(b: Bytes, n: nat): Result<Bytes>
  {
    if n == 0 then Ok(b)
    else
      var s :- GetString(b);
      SkipStrings(s.rest, n - 1)
  }

  /** The checks that kex_input_kexinit makes while it discards the packet. */
  function CheckKexinit(packet: Bytes): Result<()>
  {
    if |packet| < COOKIE_LEN then Err(MessageIncomplete)
    else
      var b :- SkipStrings(packet[COOKIE_LEN..], PROPOSAL_MAX);
      var v :- GetU8(b);
      var w :- GetU32(v.rest);
      if w.rest != [] then Err(InvalidFormat) else Ok(())
  }

  /** kex_input_kexinit, up to the start of the method. */
  function InputKexinit(env: Env, k: Kex, packet: Bytes, cookie: Cookie): (r: Result<Kex>)
    ensures r.Ok? ==> r.value.conf.Some?
  {
    var peer :- Put(k.peer, packet);
    var _ :- CheckKexinit(packet);
    var sent :- SendKexinit(k.(peer := peer), cookie);
    var conf :- ChooseConf(env.tables, env.bugHmac, sent.server, sent.my, sent.peer);
    Ok(sent.(conf := Some(conf)))
  }

  // ----- Diffie-Hellman

  function BitsSet(v: nat): nat { if v == 0 then 0 else v % 2 + BitsSet(v / 2) }

  /** dh_pub_is_valid. */
  predicate PubValid(group: DhGroup, pub: nat) { 1 < pub < group.p - 1 && BitsSet(pub) > 1 }

  /** dh_gen_key; `priv` is the exponent of its last try. */
  function GenKey(group: DhGroup, need: nat, priv: nat): Result<Dh>
  {
    var pub := ModPow(group.g, priv, group.p);
    if need > 0x3FFF_FFFF || 2 * need >= NumBits(group.p) then Err(InvalidArgument)
    else if !PubValid(group, pub) then Err(LibcryptoError)
    else Ok(Dh(group, priv, pub))
  }

  /** kexdh_client and kexdh_server. */
  function StartDh(env: Env, k: Kex, priv: nat): (r: Result<Kex>)
    requires k.conf.Some?
    ensures r.Ok? ==> r.value.dh.Some?
  {
    var group :- ToResult(env.group(k.conf.value.kexType), InvalidArgument);
    var dh :- GenKey(group, k.conf.value.need * 8, priv);
    Ok(k.(dh := Some(dh)))
  }

  // ----- Keys

  /** The keys 'A' to 'F' of the two directions. */
  ghost function WithKeys(k: NewKeys, md: Md, prefix: Bytes, session: Bytes, need: nat, ctos: bool): NewKeys
    requires Sized(md)
  {
    k.(iv := DerivedKey(md, prefix, if ctos then 65 else 66, session, need),
       key := DerivedKey(md, prefix, if ctos then 67 else 68, session, need),
       macKey := DerivedKey(md, prefix, if ctos then 69 else 70, session, need))
  }

  /** kex_derive_keys. */
  ghost function DeriveKeys(env: Env, k: Kex, hash: Bytes, secret: nat): Result<Kex>
    requires GoodEnv(env) && k.conf.Some? && k.sessionId.Some?
  {
    if !CanPutBignum(secret) then Err(InvalidArgument)
    else
      var c, md, prefix := k.conf.value, env.md(k.conf.value.kexType), Prefix(env.bugDerive, secret, hash);
      Ok(k.(conf := Some(c.(inKeys := WithKeys(c.inKeys, md, prefix, k.sessionId.value, c.need, k.server),
                            outKeys := WithKeys(c.outKeys, md, prefix, k.sessionId.value, c.need, !k.server)))))
  }

  /** The session identifier is the first exchange hash. */
  function SaveSession(k: Kex, hash: Bytes): (r: Kex)
    ensures r.sessionId.Some?
  {
    if k.sessionId.Some? then k else k.(sessionId := Some(hash))
  }

  datatype Reply = Reply(blob: Bytes, pub: nat, signature: Bytes)

  // ----- The messages

  /** SSH2_MSG_KEXDH_INIT as it is written and read. */
  function DeliverInit(pub: nat): Result<nat>
  {
    if !CanPutBignum(pub) then Err(InvalidArgument)
    else
      var v :- GetBignum(BignumBytes(pub));
      if v.rest != [] then Err(InvalidFormat) else Ok(v.value)
  }

  /** SSH2_MSG_KEXDH_REPLY as it is written and read. */
  function DeliverReply(r: Reply): Result<Reply>
  {
    if !StringFits(r.blob) || !CanPutBignum(r.pub) || !StringFits(r.signature) then Err(InvalidArgument)
    else
      var blob :- GetString(StringBytes(r.blob) + (BignumBytes(r.pub) + StringBytes(r.signature)));
      var pub :- GetBignum(blob.rest);
      var signature :- GetString(pub.rest);
      if signature.rest != [] then Err(InvalidFormat) else Ok(Reply(blob.value, pub.value, signature.value))
  }

  lemma InitIsDelivered(pub: nat)
    ensures DeliverInit(pub).Ok? <==> Transmissible(pub)
    ensures Transmissible(pub) ==> DeliverInit(pub) == Ok(pub)
  {
    hide GetBignum;
    hide BignumBytes;
    hide NumBits;
    if CanPutBignum(pub) {
      BignumRoundTrip(pub, []);
      assert BignumBytes(pub) + [] == BignumBytes(pub);
    }
  }

  lemma ReplyIsDelivered(r: Reply)
    ensures DeliverReply(r).Ok? <==> StringFits(r.blob) && Transmissible(r.pub) && StringFits(r.signature)
    ensures DeliverReply(r).Ok? ==> DeliverReply(r) == Ok(r)
  {
    hide GetBignum;
    hide BignumBytes;
    hide GetString;
    hide StringBytes;
    hide NumBits;
    if StringFits(r.blob) && CanPutBignum(r.pub) && StringFits(r.signature) {
      StringRoundTrip(r.blob, BignumBytes(r.pub) + StringBytes(r.signature));
      BignumRoundTrip(r.pub, StringBytes(r.signature));
      StringRoundTrip(r.signature, []);
      assert StringBytes(r.signature) + [] == StringBytes(r.signature);
    }
  }

  /** input_kex_dh_init: the server's half. */
  ghost function ServerReply(env: Env, k: Kex, clientPub: nat): Result<(Kex, Reply)>
    requires GoodEnv(env) && k.conf.Some? && k.dh.Some?
  {
    var dh, hostkeyType := k.dh.value, k.conf.value.hostkeyType;
    var blob :- ToResult(env.hostBlob(hostkeyType), NoHostkeyLoaded);
    if !PubValid(dh.group, clientPub) then Err(MessageIncomplete)
    else
      var secret := ModPow(clientPub, dh.priv, dh.group.p);
      var hash :- DhHash(env.sha1,
                         Transcript(k.clientVersion, k.serverVersion, k.peer, k.my, blob, clientPub, dh.pub, secret));
      var keyed :- DeriveKeys(env, SaveSession(k, hash), hash, secret);
      Ok((keyed.(dh := None), Reply(blob, dh.pub, env.sign(hostkeyType, hash))))
  }

  /** input_kex_dh: the client's half. */
  ghost function ClientFinish(env: Env, k: Kex, reply: Reply): Result<Kex>
    requires GoodEnv(env) && k.conf.Some? && k.dh.Some?
  {
    var dh := k.dh.value;
    var blobType :- ToResult(env.blobType(reply.blob), InvalidFormat);
    if blobType != k.conf.value.hostkeyType then Err(KeyTypeMismatch)
    else if !env.trusted(reply.blob) then Err(SignatureInvalid)
    else if !PubValid(dh.group, reply.pub) then Err(MessageIncomplete)
    else
      var secret := ModPow(reply.pub, dh.priv, dh.group.p);
      var hash :- DhHash(env.sha1,
                         Transcript(k.clientVersion, k.serverVersion, k.my, k.peer, reply.blob, dh.pub, reply.pub,
                                    secret));
      if !env.verify(reply.blob, reply.signature, hash) then Err(SignatureInvalid)
      else
        var keyed :- DeriveKeys(env, SaveSession(k, hash), hash, secret);
        Ok(keyed.(dh := None))
  }

  /** kex_input_newkeys. */
  function InputNewkeys(k: Kex): Kex { k.(done := true, peer := [], initSent := false) }

  // ----- The same in place

  class KexObject {
    const server: bool
    const clientVersion: Bytes
    const serverVersion: Bytes
    var my: Bytes
    var peer: Bytes
    var initSent: bool
    var done: bool
    var conf: Option<Conf>
    var dh: Option<Dh>
    var sessionId: Option<Bytes>

    function State(): Kex
      reads this
    {
      Kex(server, clientVersion, serverVersion, my, peer, initSent, done, conf, dh, sessionId)
    }

    method SendKexinitInPlace(cookie: Cookie) returns (r: Result<()>)
      modifies this
      ensures if r.Ok? then SendKexinit(old(State()), cookie) == Ok(State())
              else SendKexinit(old(State()), cookie) == Err(r.error) && State() == old(State()).(done := false)
    {
      if initSent { return Ok(()); }
      done := false;
      if |my| < COOKIE_LEN { return Err(InvalidFormat); }
      my := cookie + my[COOKIE_LEN..];
      initSent := true;
      return Ok(());
    }

    method InputKexinitInPlace(env: Env, packet: Bytes, cookie: Cookie) returns (r: Result<()>)
      modifies this
      ensures if r.Ok? then InputKexinit(env, old(State()), packet, cookie) == Ok(State())
              else InputKexinit(env, old(State()), packet, cookie).Err?
      ensures sessionId == old(sessionId) && dh == old(dh) && (r.Err? ==> conf == old(conf))
      ensures peer == old(peer) || peer == old(peer) + packet
    {
      hide ChooseConf;
      hide CheckKexinit;
      peer :- Put(peer, packet);
      var _ :- CheckKexinit(packet);
      if !initSent {
        var _ :- SendKexinitInPlace(cookie);
      }
      var c :- ChooseConfLoop(env.tables, env.bugHmac, server, my, peer);
      conf := Some(c);
      return Ok(());
    }

    method StartDhInPlace(env: Env, priv: nat) returns (r: Result<()>)
      requires conf.Some?
      modifies this
      ensures if r.Ok? then StartDh(env, old(State()), priv) == Ok(State())
              else StartDh(env, old(State()), priv) == Err(r.error) && State() == old(State())
    {
      hide GenKey;
      var group :- ToResult(env.group(conf.value.kexType), InvalidArgument);
      var key :- GenKey(group, conf.value.need * 8, priv);
      dh := Some(key);
      return Ok(());
    }

    /** The loop over the six keys, then over the two directions. */
    method DeriveKeysInPlace(env: Env, hash: Bytes, secret: nat) returns (r: Result<()>)
      requires GoodEnv(env) && conf.Some? && sessionId.Some?
      modifies this
      ensures if r.Ok? then DeriveKeys(env, old(State()), hash, secret) == Ok(State())
              else DeriveKeys(env, old(State()), hash, secret) == Err(r.error) && State() == old(State())
      ensures sessionId == old(sessionId) && State().(conf := old(conf)) == old(State())
    {
      hide DerivedKey;
      hide Sized;
      hide Prefix;
      var c, md, session := conf.value, env.md(conf.value.kexType), sessionId.value;
      var keys: seq<Bytes> := [];
      for i := 0 to 6
        invariant State() == old(State()) && |keys| == i && (i > 0 ==> CanPutBignum(secret))
        invariant forall j | 0 <= j < i ::
                  keys[j] == DerivedKey(md, Prefix(env.bugDerive, secret, hash), 65 + j, session, c.need)
      {
        var key :- DeriveKey(md, env.bugDerive, 65 + i, c.need, hash, secret, session);
        keys := keys + [key];
      }
      var ctosKeys := c.(inKeys := Assign(c.inKeys, keys, server), outKeys := Assign(c.outKeys, keys, !server));
      conf := Some(ctosKeys);
      return Ok(());
    }

    method SaveSessionInPlace(hash: Bytes)
      modifies this
      ensures State() == SaveSession(old(State()), hash)
    {
      if sessionId.None? { sessionId := Some(hash); }
    }

    /** The session identifier and the keys, once the secret key is freed. */
    method FinishInPlace(env: Env, hash: Bytes, secret: nat, ghost before: Kex) returns (r: Result<()>)
      requires GoodEnv(env) && before.conf.Some? && State() == before.(dh := None)
      modifies this
      ensures var keyed := DeriveKeys(env, SaveSession(before, hash), hash, secret);
              if r.Ok? then keyed.Ok? && State() == keyed.value.(dh := None) else keyed.Err? && conf == old(conf)
      ensures State().(conf := old(conf), sessionId := old(sessionId)) == old(State())
      ensures old(sessionId).Some? ==> sessionId == old(sessionId)
    {
      hide DeriveKeys;
      hide Sized;
      SaveSessionInPlace(hash);
      DeriveIgnoresDh(env, SaveSession(before, hash), hash, secret);
      r := DeriveKeysInPlace(env, hash, secret);
    }

    method ServerReplyInPlace(env: Env, clientPub: nat) returns (r: Result<Reply>)
      requires GoodEnv(env) && conf.Some? && dh.Some?
      modifies this
      ensures if r.Ok? then ServerReply(env, old(State()), clientPub) == Ok((State(), r.value))
              else ServerReply(env, old(State()), clientPub).Err? && conf == old(conf)
      ensures State().(conf := old(conf), sessionId := old(sessionId)) == old(State()).(dh := None)
      ensures old(sessionId).Some? ==> sessionId == old(sessionId)
    {
      hide DeriveKeys;
      hide DhHash;
      hide PubValid;
      hide ModPow;
      hide Sized;
      hide CanPutBignum;
      hide CanEncode;
      var d, hostkeyType := dh.value, conf.value.hostkeyType;
      dh := None;
      var blob :- ToResult(env.hostBlob(hostkeyType), NoHostkeyLoaded);
      if !PubValid(d.group, clientPub) { return Err(MessageIncomplete); }
      var secret := ModPow(clientPub, d.priv, d.group.p);
      var hash :- DhHash(env.sha1, Transcript(clientVersion, serverVersion, peer, my, blob, clientPub, d.pub, secret));
      var _ :- FinishInPlace(env, hash, secret, old(State()));
      return Ok(Reply(blob, d.pub, env.sign(hostkeyType, hash)));
    }

    method ClientFinishInPlace(env: Env, reply: Reply) returns (r: Result<()>)
      requires GoodEnv(env) && conf.Some? && dh.Some?
      modifies this
      ensures if r.Ok? then ClientFinish(env, old(State()), reply) == Ok(State())
              else ClientFinish(env, old(State()), reply).Err? && conf == old(conf)
      ensures State().(conf := old(conf), sessionId := old(sessionId)) == old(State()).(dh := None)
      ensures old(sessionId).Some? ==> sessionId == old(sessionId)
    {
      hide DeriveKeys;
      hide DhHash;
      hide PubValid;
      hide ModPow;
      hide Sized;
      hide CanPutBignum;
      hide CanEncode;
      var d := dh.value;
      dh := None;
      var blobType :- ToResult(env.blobType(reply.blob), InvalidFormat);
      if blobType != conf.value.hostkeyType { return Err(KeyTypeMismatch); }
      if !env.trusted(reply.blob) { return Err(SignatureInvalid); }
      if !PubValid(d.group, reply.pub) { return Err(MessageIncomplete); }
      var secret := ModPow(reply.pub, d.priv, d.group.p);
      var hash :- DhHash(env.sha1,
                         Transcript(clientVersion, serverVersion, my, peer, reply.blob, d.pub, reply.pub, secret));
      if !env.verify(reply.blob, reply.signature, hash) { return Err(SignatureInvalid); }
      r := FinishInPlace(env, hash, secret, old(State()));
    }

    method InputNewkeysInPlace()
      modifies this
      ensures State() == InputNewkeys(old(State()))
    {
      done := true;
      peer := [];
      initSent := false;
    }
  }

  /** The keys of one direction among the six. */
  function Assign(k: NewKeys, keys: seq<Bytes>, ctos: bool): NewKeys
    requires |keys| == 6
  {
    k.(iv := keys[if ctos then 0 else 1], key := keys[if ctos then 2 else 3], macKey := keys[if ctos then 4 else 5])
  }

  lemma DeriveIgnoresDh(env: Env, k: Kex, hash: Bytes, secret: nat)
    requires GoodEnv(env) && k.conf.Some? && k.sessionId.Some?
    ensures var a, b := DeriveKeys(env, k, hash, secret), DeriveKeys(env, k.(dh := None), hash, secret);
            (a.Ok? <==> b.Ok?) && (a.Ok? ==> b.value == a.value.(dh := None))
  {
    hide DerivedKey;
    hide Sized;
    hide Prefix;
  }

  // ----- An exchange between two sides

  /** Who asks for the exchange: both at once, or one and the other answers its KEXINIT. */
  datatype Order = Both | ClientAsks | ServerAsks

  /** The cookies and private exponents of an exchange, and the order of its KEXINITs. */
  datatype Randoms = Randoms(clientCookie: Cookie, serverCookie: Cookie, x: nat, y: nat, order: Order)

  datatype Pair = Pair(client: Kex, server: Kex)

  /** Both sides send KEXINIT before either receives one. */
  function OpenBoth(env: Env, pair: Pair, r: Randoms): (open: Result<Pair>)
    ensures open.Ok? ==> open.value.client.conf.Some? && open.value.server.conf.Some?
  {
    hide InputKexinit;
    var c1 :- SendKexinit(pair.client, r.clientCookie);
    var s1 :- SendKexinit(pair.server, r.serverCookie);
    var c2 :- InputKexinit(env, c1, s1.my, r.clientCookie);
    var s2 :- InputKexinit(env, s1, c1.my, r.serverCookie);
    Ok(Pair(c2, s2))
  }

  /** One side sends KEXINIT, and the other sends its own from kex_input_kexinit. */
  function OpenOne(env: Env, asking: Kex, answering: Kex, askCookie: Cookie, answerCookie: Cookie)
    : (open: Result<(Kex, Kex)>)
    ensures open.Ok? ==> open.value.0.conf.Some? && open.value.1.conf.Some?
  {
    hide InputKexinit;
    var a1 :- SendKexinit(asking, askCookie);
    var b1 :- InputKexinit(env, answering, a1.my, answerCookie);
    var a2 :- InputKexinit(env, a1, b1.my, askCookie);
    Ok((a2, b1))
  }

  /** Both sides send KEXINIT and negotiate. */
  function Opening(env: Env, pair: Pair, r: Randoms): (open: Result<Pair>)
    ensures open.Ok? ==> open.value.client.conf.Some? && open.value.server.conf.Some?
  {
    hide OpenBoth;
    hide OpenOne;
    match r.order
    case Both => OpenBoth(env, pair, r)
    case ClientAsks =>
      var cs :- OpenOne(env, pair.client, pair.server, r.clientCookie, r.serverCookie);
      Ok(Pair(cs.0, cs.1))
    case ServerAsks =>
      var sc :- OpenOne(env, pair.server, pair.client, r.serverCookie, r.clientCookie);
      Ok(Pair(sc.1, sc.0))
  }

  /** Then the client's public value, the server's reply and NEWKEYS both ways. */
  ghost function Closing(env: Env, pair: Pair, r: Randoms): Result<Pair>
    requires GoodEnv(env) && pair.client.conf.Some? && pair.server.conf.Some?
  {
    var c3 :- StartDh(env, pair.client, r.x);
    var s3 :- StartDh(env, pair.server, r.y);
    var clientPub :- DeliverInit(c3.dh.value.pub);
    var sr :- ServerReply(env, s3, clientPub);
    var reply :- DeliverReply(sr.1);
    var c4 :- ClientFinish(env, c3, reply);
    Ok(Pair(InputNewkeys(c4), InputNewkeys(sr.0)))
  }

  ghost function Exchange(env: Env, pair: Pair, r: Randoms): Result<Pair>
    requires GoodEnv(env)
  {
    hide Opening;
    var open :- Opening(env, pair, r);
    Closing(env, open, r)
  }

  /** Any number of exchanges on one connection: the first and every rekey. */
  ghost function Exchanges(env: Env, pair: Pair, rs: seq<Randoms>): Result<Pair>
    requires GoodEnv(env)
    decreases |rs|
  {
    if rs == [] then Ok(pair)
    else
      var next :- Exchange(env, pair, rs[0]);
      Exchanges(env, next, rs[1..])
  }

  // ----- Agreement

  /** The two ends of one connection, between exchanges. */
  ghost predicate Connected(pair: Pair)
  {
    var c, s := pair.client, pair.server;
    && !c.server && s.server && c.clientVersion == s.clientVersion && c.serverVersion == s.serverVersion
    && !c.initSent && !s.initSent && c.peer == [] && s.peer == [] && c.sessionId == s.sessionId
  }

  /** The same during an exchange, with each other's KEXINIT in hand. */
  ghost predicate Negotiated(pair: Pair)
  {
    var c, s := pair.client, pair.server;
    && !c.server && s.server && c.clientVersion == s.clientVersion && c.serverVersion == s.serverVersion
    && c.peer == s.my && s.peer == c.my && c.sessionId == s.sessionId
    && c.conf.Some? && s.conf.Some? && s.conf.value == Mirror(c.conf.value)
  }

  /** Answering a KEXINIT is sending one's own first. */
  lemma AnswerIsSend(env: Env, k: Kex, packet: Bytes, cookie: Cookie)
    requires !k.initSent
    ensures var sent := SendKexinit(k, cookie);
            if sent.Ok? then InputKexinit(env, k, packet, cookie) == InputKexinit(env, sent.value, packet, cookie)
            else InputKexinit(env, k, packet, cookie).Err?
    ensures InputKexinit(env, k, packet, cookie).Ok? ==>
              InputKexinit(env, k, packet, cookie).value.my == SendKexinit(k, cookie).value.my
  {
    hide ChooseConf;
    hide CheckKexinit;
  }

  /** Whoever asks, the sides end in the same states. */
  lemma OrderIsIndifferent(env: Env, pair: Pair, r: Randoms)
    requires !pair.client.initSent && !pair.server.initSent
    ensures Opening(env, pair, r).Ok? <==> OpenBoth(env, pair, r).Ok?
    ensures Opening(env, pair, r).Ok? ==> Opening(env, pair, r) == OpenBoth(env, pair, r)
  {
    hide InputKexinit;
    var c1, s1 := SendKexinit(pair.client, r.clientCookie), SendKexinit(pair.server, r.serverCookie);
    if c1.Ok? { AnswerIsSend(env, pair.server, c1.value.my, r.serverCookie); }
    if s1.Ok? { AnswerIsSend(env, pair.client, s1.value.my, r.clientCookie); }
  }

  lemma OpeningAgrees(env: Env, pair: Pair, r: Randoms)
    requires Connected(pair)
    ensures Opening(env, pair, r).Ok? ==>
              Negotiated(Opening(env, pair, r).value)
              && Opening(env, pair, r).value.client.sessionId == pair.client.sessionId
  {
    hide OpenBoth;
    hide Opening;
    hide Negotiated;
    OrderIsIndifferent(env, pair, r);
    BothAgree(env, pair, r);
  }

  lemma BothAgree(env: Env, pair: Pair, r: Randoms)
    requires Connected(pair)
    ensures OpenBoth(env, pair, r).Ok? ==>
              Negotiated(OpenBoth(env, pair, r).value)
              && OpenBoth(env, pair, r).value.client.sessionId == pair.client.sessionId
  {
    hide ChooseConf;
    hide CheckKexinit;
    var c1, s1 := SendKexinit(pair.client, r.clientCookie), SendKexinit(pair.server, r.serverCookie);
    if c1.Ok? && s1.Ok? {
      NegotiationAgrees(env.tables, env.bugHmac, c1.value.my, s1.value.my);
      assert [] + c1.value.my == c1.value.my && [] + s1.value.my == s1.value.my;
    }
  }

  /** Both sides raise the other's public value to their own exponent. */
  lemma SameSecret(group: DhGroup, x: nat, y: nat)
    ensures ModPow(ModPow(group.g, y, group.p), x, group.p) == ModPow(ModPow(group.g, x, group.p), y, group.p)
  {
    var g, p := group.g, group.p;
    SameMod(Pow(g, x), p);
    SameMod(Pow(g, y), p);
    PowSame(ModPow(g, x, p), Pow(g, x), y, p);
    PowSame(ModPow(g, y, p), Pow(g, y), x, p);
    PowMul(g, x, y);
    PowMul(g, y, x);
    assert x * y == y * x;
  }

  /** The hash that both sides compute in an exchange. */
  function SharedTranscript(pair: Pair, blob: Bytes, group: DhGroup, x: nat, y: nat): Transcript
  {
    Transcript(pair.client.clientVersion, pair.client.serverVersion, pair.client.my, pair.server.my, blob,
               ModPow(group.g, x, group.p), ModPow(group.g, y, group.p),
               ModPow(ModPow(group.g, x, group.p), y, group.p))
  }

  /** The directions have the same names, sizes and keys at both ends. */
  ghost predicate SameKeys(pair: Pair)
  {
    && pair.client.conf.Some? && pair.server.conf.Some?
    && pair.server.conf.value == Mirror(pair.client.conf.value)
  }

  lemma DeriveAgrees(env: Env, pair: Pair, hash: Bytes, secret: nat)
    requires GoodEnv(env) && Negotiated(pair) && pair.client.sessionId.Some?
    ensures DeriveKeys(env, pair.client, hash, secret).Ok? <==> DeriveKeys(env, pair.server, hash, secret).Ok?
    ensures DeriveKeys(env, pair.client, hash, secret).Ok? ==>
              SameKeys(Pair(DeriveKeys(env, pair.client, hash, secret).value,
                            DeriveKeys(env, pair.server, hash, secret).value))
  {
    hide DerivedKey;
    hide CanPutBignum;
    hide Prefix;
    hide Sized;
  }

  lemma DeriveKeeps(env: Env, k: Kex, hash: Bytes, secret: nat)
    requires GoodEnv(env) && k.conf.Some? && k.sessionId.Some?
    ensures DeriveKeys(env, k, hash, secret).Ok? <==> CanPutBignum(secret)
    ensures CanPutBignum(secret) ==> DeriveKeys(env, k, hash, secret).value.(conf := k.conf) == k
  {
    hide DerivedKey;
    hide CanPutBignum;
    hide Prefix;
    hide Sized;
  }

  lemma HashedSecret(h: Bytes -> Bytes, t: Transcript)
    requires DhHash(h, t).Ok?
    ensures CanPutBignum(t.secret)
  {
  }

  /** The host key and its signatures are genuine, and its type is found in its blob. */
  ghost predicate HonestHost(env: Env)
  {
    && (forall t :: env.hostBlob(t).Some? ==>
        env.blobType(env.hostBlob(t).value) == Some(t) && env.trusted(env.hostBlob(t).value))
    && (forall t, d :: env.hostBlob(t).Some? ==> env.verify(env.hostBlob(t).value, env.sign(t, d), d))
  }

  /** The two ends after StartDh. */
  ghost predicate Started(pair: Pair, group: DhGroup, x: nat, y: nat)
  {
    && Negotiated(pair) && pair.client.dh == Some(Dh(group, x, ModPow(group.g, x, group.p)))
    && pair.server.dh == Some(Dh(group, y, ModPow(group.g, y, group.p)))
    && PubValid(group, ModPow(group.g, x, group.p)) && PubValid(group, ModPow(group.g, y, group.p))
  }

  lemma StartAgrees(env: Env, pair: Pair, r: Randoms)
    requires Negotiated(pair)
    ensures var (c, s) := (StartDh(env, pair.client, r.x), StartDh(env, pair.server, r.y));
            c.Ok? && s.Ok? ==>
              && env.group(pair.client.conf.value.kexType).Some?
              && Started(Pair(c.value, s.value), env.group(pair.client.conf.value.kexType).value, r.x, r.y)
              && c.value.(dh := pair.client.dh) == pair.client && s.value.(dh := pair.server.dh) == pair.server
  {
    hide PubValid;
    hide ModPow;
    hide NumBits;
  }

  /** What an exchange leaves behind. */
  ghost predicate Agreed(before: Pair, after: Pair, hash: Bytes)
  {
    && Connected(after) && SameKeys(after)
    && after.client.sessionId == Some(if before.client.sessionId.Some? then before.client.sessionId.value else hash)
  }

  /** The second half: one transcript, one hash, one secret. */
  lemma ReplyAgrees(env: Env, pair: Pair, group: DhGroup, x: nat, y: nat, blob: Bytes)
    requires GoodEnv(env) && HonestHost(env) && Started(pair, group, x, y)
    requires env.hostBlob(pair.client.conf.value.hostkeyType) == Some(blob)
    ensures var sr := ServerReply(env, pair.server, pair.client.dh.value.pub);
            var t := SharedTranscript(pair, blob, group, x, y);
            && (sr.Ok? <==> DhHash(env.sha1, t).Ok?)
            && (sr.Ok? ==>
                  && sr.value.1 == Reply(blob, pair.server.dh.value.pub,
                                         env.sign(pair.client.conf.value.hostkeyType, DhHash(env.sha1, t).value))
                  && ClientFinish(env, pair.client, sr.value.1).Ok?
                  && Agreed(pair, Pair(InputNewkeys(ClientFinish(env, pair.client, sr.value.1).value),
                                       InputNewkeys(sr.value.0)),
                            DhHash(env.sha1, t).value))
  {
    hide ModPow;
    hide PubValid;
    hide DhHash;
    hide DeriveKeys;
    hide CanPutBignum;
    SameSecret(group, x, y);
    var t := SharedTranscript(pair, blob, group, x, y);
    var hash := DhHash(env.sha1, t);
    if hash.Ok? {
      var saved := Pair(SaveSession(pair.client, hash.value), SaveSession(pair.server, hash.value));
      HashedSecret(env.sha1, t);
      DeriveKeeps(env, saved.client, hash.value, t.secret);
      DeriveKeeps(env, saved.server, hash.value, t.secret);
      DeriveAgrees(env, saved, hash.value, t.secret);
    }
  }

  /** The hash of an exchange, as soon as both sides have negotiated. */
  function ExchangeHash(env: Env, open: Pair, r: Randoms): Result<Bytes>
    requires open.client.conf.Some?
  {
    var group :- ToResult(env.group(open.client.conf.value.kexType), InvalidArgument);
    var blob :- ToResult(env.hostBlob(open.client.conf.value.hostkeyType), NoHostkeyLoaded);
    DhHash(env.sha1, SharedTranscript(open, blob, group, r.x, r.y))
  }

  /** dh_gen_key finds a key on both sides, there is a host key and a hash, and the messages can
      be written and read. */
  predicate Serviceable(env: Env, open: Pair, r: Randoms)
    requires open.client.conf.Some? && open.server.conf.Some?
  {
    var (c, s, hash) := (StartDh(env, open.client, r.x), StartDh(env, open.server, r.y), ExchangeHash(env, open, r));
    && c.Ok? && s.Ok? && hash.Ok? && Transmissible(c.value.dh.value.pub) && Transmissible(s.value.dh.value.pub)
    && StringFits(env.sign(open.client.conf.value.hostkeyType, hash.value))
  }

  /** Nothing but a missing key or an oversized value can stop an honest exchange now. */
  lemma ClosingAgrees(env: Env, open: Pair, r: Randoms)
    requires GoodEnv(env) && HonestHost(env) && Negotiated(open)
    ensures Closing(env, open, r).Ok? <==> Serviceable(env, open, r)
    ensures Closing(env, open, r).Ok? ==> Agreed(open, Closing(env, open, r).value, ExchangeHash(env, open, r).value)
  {
    hide StartDh;
    hide ServerReply;
    hide ClientFinish;
    hide DhHash;
    hide HonestHost;
    hide PubValid;
    hide ModPow;
    hide DeliverInit;
    hide DeliverReply;
    hide Transmissible;
    StartAgrees(env, open, r);
    var c, s := StartDh(env, open.client, r.x), StartDh(env, open.server, r.y);
    if c.Ok? && s.Ok? {
      var host := env.hostBlob(open.client.conf.value.hostkeyType);
      var started := Pair(c.value, s.value);
      InitIsDelivered(c.value.dh.value.pub);
      if host.None? {
        NoHostKey(env, s.value, c.value.dh.value.pub);
      } else {
        var group, clientPub := env.group(open.client.conf.value.kexType).value, c.value.dh.value.pub;
        ReplyAgrees(env, started, group, r.x, r.y, host.value);
        var sr := ServerReply(env, s.value, clientPub);
        if sr.Ok? {
          ReplyIsDelivered(sr.value.1);
          HashedBlob(env.sha1, SharedTranscript(started, host.value, group, r.x, r.y));
        }
      }
    }
  }

  lemma HashedBlob(h: Bytes -> Bytes, t: Transcript)
    requires DhHash(h, t).Ok?
    ensures StringFits(t.hostKey)
  {
  }

  lemma NoHostKey(env: Env, k: Kex, clientPub: nat)
    requires GoodEnv(env) && k.conf.Some? && k.dh.Some? && env.hostBlob(k.conf.value.hostkeyType).None?
    ensures ServerReply(env, k, clientPub).Err?
  {
  }

  /** An honest exchange on a connection, the first or a rekey: it succeeds exactly when the
      negotiation does and the keys are there; then what one side sends with is what the other
      receives with, and a session identifier once set stays. */
  lemma ExchangeAgrees(env: Env, pair: Pair, r: Randoms)
    requires GoodEnv(env) && HonestHost(env) && Connected(pair)
    ensures Opening(env, pair, r).Ok? ==> Negotiated(Opening(env, pair, r).value)
    ensures Exchange(env, pair, r).Ok? <==>
              Opening(env, pair, r).Ok? && Serviceable(env, Opening(env, pair, r).value, r)
    ensures Exchange(env, pair, r).Ok? ==>
              Agreed(pair, Exchange(env, pair, r).value, ExchangeHash(env, Opening(env, pair, r).value, r).value)
  {
    hide Opening;
    hide Closing;
    hide Serviceable;
    hide ExchangeHash;
    hide HonestHost;
    OpeningAgrees(env, pair, r);
    if Opening(env, pair, r).Ok? {
      ClosingAgrees(env, Opening(env, pair, r).value, r);
    }
  }

  /** Over any number of exchanges the session identifier is the hash of the first, and the
      keys always agree. */
  lemma {:induction false} ExchangesAgree(env: Env, pair: Pair, rs: seq<Randoms>)
    requires GoodEnv(env) && HonestHost(env) && Connected(pair) && Exchanges(env, pair, rs).Ok? && rs != []
    ensures var last := Exchanges(env, pair, rs).value;
            && Connected(last) && SameKeys(last) && Exchange(env, pair, rs[0]).Ok?
            && last.client.sessionId.Some? && last.client.sessionId == Exchange(env, pair, rs[0]).value.client.sessionId
    decreases |rs|
  {
    hide Exchange;
    hide Opening;
    hide Serviceable;
    hide ExchangeHash;
    hide HonestHost;
    ExchangeAgrees(env, pair, rs[0]);
    var next := Exchange(env, pair, rs[0]).value;
    if |rs| > 1 {
      ExchangesAgree(env, next, rs[1..]);
      ExchangeAgrees(env, next, rs[1]);
      assert rs[1..][0] == rs[1];
    }
  }

  // ----- What a side insists on

  /** What the client hashes for a reply. */
  function ClientTranscript(k: Kex, reply: Reply): Transcript
    requires k.dh.Some?
  {
    var dh := k.dh.value;
    Transcript(k.clientVersion, k.serverVersion, k.my, k.peer, reply.blob, dh.pub, reply.pub,
               ModPow(reply.pub, dh.priv, dh.group.p))
  }

  /** What the server hashes for the client's public value. */
  function ServerTranscript(k: Kex, blob: Bytes, clientPub: nat): Transcript
    requires k.dh.Some?
  {
    var dh := k.dh.value;
    Transcript(k.clientVersion, k.serverVersion, k.peer, k.my, blob, clientPub, dh.pub,
               ModPow(clientPub, dh.priv, dh.group.p))
  }

  /** The client takes no reply but one with a trusted host key of the negotiated type, a valid
      public value, and a signature over the hash of this very exchange. */
  lemma ClientInsists(env: Env, k: Kex, reply: Reply)
    requires GoodEnv(env) && k.conf.Some? && k.dh.Some? && ClientFinish(env, k, reply).Ok?
    ensures env.blobType(reply.blob) == Some(k.conf.value.hostkeyType) && env.trusted(reply.blob)
    ensures PubValid(k.dh.value.group, reply.pub)
    ensures var hash := DhHash(env.sha1, ClientTranscript(k, reply));
            hash.Ok? && env.verify(reply.blob, reply.signature, hash.value)
  {
    hide DhHash;
    hide PubValid;
    hide DeriveKeys;
  }

  /** The server answers only a valid public value, and signs the hash of this very exchange. */
  lemma ServerInsists(env: Env, k: Kex, clientPub: nat)
    requires GoodEnv(env) && k.conf.Some? && k.dh.Some? && ServerReply(env, k, clientPub).Ok?
    ensures var dh, reply := k.dh.value, ServerReply(env, k, clientPub).value.1;
            var hash := DhHash(env.sha1, ServerTranscript(k, reply.blob, clientPub));
            && PubValid(dh.group, clientPub) && reply.pub == dh.pub
            && hash.Ok? && reply.signature == env.sign(k.conf.value.hostkeyType, hash.value)
  {
    hide DhHash;
    hide PubValid;
    hide DeriveKeys;
  }

  /** If the hash that the client checked is the one that some server signed, then the two saw the
      same versions, KEXINITs, host key, public values and secret, or the hash collides on the
      two very encodings. */
  lemma SameHashSameExchange(env: Env, c: Kex, reply: Reply, s: Kex, blob: Bytes, clientPub: nat)
    requires c.dh.Some? && s.dh.Some? && DhHash(env.sha1, ClientTranscript(c, reply)).Ok?
    requires DhHash(env.sha1, ClientTranscript(c, reply)) == DhHash(env.sha1, ServerTranscript(s, blob, clientPub))
    ensures var (t, u) := (ClientTranscript(c, reply), ServerTranscript(s, blob, clientPub));
            && CanEncode(t) && CanEncode(u)
            && (Collision(env.sha1, KexDerive.Encode(t), KexDerive.Encode(u))
                || (t == u && c.clientVersion == s.clientVersion && c.serverVersion == s.serverVersion && c.my == s.peer
                    && c.peer == s.my && reply.blob == blob && c.dh.value.pub == clientPub
                    && reply.pub == s.dh.value.pub))
  {
    hide KexDerive.Encode;
    hide CanEncode;
    hide ModPow;
    var t, u := ClientTranscript(c, reply), ServerTranscript(s, blob, clientPub);
    if KexDerive.Encode(t) == KexDerive.Encode(u) { TranscriptInjective(t, u); }
  }

  /** One side's configuration is what it negotiated from the KEXINITs it holds. */
  ghost predicate FromKexinits(env: Env, k: Kex)
  {
    k.conf.Some? && ChooseConf(env.tables, env.bugHmac, k.server, k.my, k.peer) == Ok(k.conf.value)
  }

  lemma InputFromKexinits(env: Env, k: Kex, packet: Bytes, cookie: Cookie)
    ensures InputKexinit(env, k, packet, cookie).Ok? ==> FromKexinits(env, InputKexinit(env, k, packet, cookie).value)
  {
    hide ChooseConf;
    hide CheckKexinit;
  }

  /** A client and a server in any states, with anything in between: if the client accepts a reply
      whose hash this server signed, the two hold the same keys and session, or the hash
      collides. */
  lemma AcceptedMeansAgreed(env: Env, c: Kex, reply: Reply, s: Kex, clientPub: nat)
    requires GoodEnv(env) && !c.server && s.server && c.sessionId == s.sessionId && c.dh.Some? && s.dh.Some?
    requires FromKexinits(env, c) && FromKexinits(env, s)
    requires ClientFinish(env, c, reply).Ok? && ServerReply(env, s, clientPub).Ok?
    requires var blob := ServerReply(env, s, clientPub).value.1.blob;
             DhHash(env.sha1, ClientTranscript(c, reply)) == DhHash(env.sha1, ServerTranscript(s, blob, clientPub))
    ensures var (c', s') := (ClientFinish(env, c, reply).value, ServerReply(env, s, clientPub).value);
            var (t, u) := (ClientTranscript(c, reply), ServerTranscript(s, s'.1.blob, clientPub));
            && CanEncode(t) && CanEncode(u)
            && (Collision(env.sha1, KexDerive.Encode(t), KexDerive.Encode(u))
                || (SameKeys(Pair(c', s'.0)) && c'.sessionId == s'.0.sessionId))
  {
    hide KexDerive.Encode;
    hide CanEncode;
    hide ModPow;
    hide PubValid;
    hide DhHash;
    hide DeriveKeys;
    hide ChooseConf;
    hide CanPutBignum;
    hide Collision;
    var blob := ServerReply(env, s, clientPub).value.1.blob;
    var t, u := ClientTranscript(c, reply), ServerTranscript(s, blob, clientPub);
    SameHashSameExchange(env, c, reply, s, blob, clientPub);
    if !Collision(env.sha1, KexDerive.Encode(t), KexDerive.Encode(u)) {
      NegotiationAgrees(env.tables, env.bugHmac, c.my, s.my);
      var hash := DhHash(env.sha1, t).value;
      var saved := Pair(SaveSession(c, hash), SaveSession(s, hash));
      DeriveKeeps(env, saved.client, hash, t.secret);
      DeriveKeeps(env, saved.server, hash, t.secret);
      DeriveAgrees(env, saved, hash, t.secret);
    }
  }

  /** StartDh changes nothing that was negotiated. */
  lemma StartKeeps(env: Env, k: Kex, priv: nat)
    requires FromKexinits(env, k)
    ensures StartDh(env, k, priv).Ok? ==>
              FromKexinits(env, StartDh(env, k, priv).value) && StartDh(env, k, priv).value.(dh := k.dh) == k
  {
    hide ChooseConf;
    hide GenKey;
  }

  /** One side from the receipt of a KEXINIT to its key pair. */
  function Prepared(env: Env, k: Kex, packet: Bytes, cookie: Cookie, priv: nat): (r: Result<Kex>)
    ensures r.Ok? ==> r.value.dh.Some? && r.value.conf.Some?
  {
    hide ChooseConf;
    hide GenKey;
    var negotiated :- InputKexinit(env, k, packet, cookie);
    StartDh(env, negotiated, priv)
  }

  lemma PreparedFromKexinits(env: Env, k: Kex, packet: Bytes, cookie: Cookie, priv: nat)
    ensures var r := Prepared(env, k, packet, cookie, priv);
            r.Ok? ==> FromKexinits(env, r.value) && r.value.server == k.server && r.value.sessionId == k.sessionId
  {
    hide ChooseConf;
    hide CheckKexinit;
    hide GenKey;
    InputFromKexinits(env, k, packet, cookie);
    var n := InputKexinit(env, k, packet, cookie);
    if n.Ok? { StartKeeps(env, n.value, priv); }
  }

  /** So for any client and server that went through kex_input_kexinit and the start of the method
      on whatever packets: acceptance of a reply whose hash this server signed means agreement. */
  lemma PreparedAgree(env: Env, c0: Kex, s0: Kex, toClient: Bytes, toServer: Bytes, r: Randoms, reply: Reply,
                      clientPub: nat)
    requires GoodEnv(env) && !c0.server && s0.server && c0.sessionId == s0.sessionId
    requires Prepared(env, c0, toClient, r.clientCookie, r.x).Ok?
             && Prepared(env, s0, toServer, r.serverCookie, r.y).Ok?
    requires var (c, s) := (Prepared(env, c0, toClient, r.clientCookie, r.x).value,
                            Prepared(env, s0, toServer, r.serverCookie, r.y).value);
             && ClientFinish(env, c, reply).Ok? && ServerReply(env, s, clientPub).Ok?
             && DhHash(env.sha1, ClientTranscript(c, reply))
                == DhHash(env.sha1, ServerTranscript(s, ServerReply(env, s, clientPub).value.1.blob, clientPub))
    ensures var (c, s) := (Prepared(env, c0, toClient, r.clientCookie, r.x).value,
                           Prepared(env, s0, toServer, r.serverCookie, r.y).value);
            var (c', s') := (ClientFinish(env, c, reply).value, ServerReply(env, s, clientPub).value);
            var (t, u) := (ClientTranscript(c, reply), ServerTranscript(s, s'.1.blob, clientPub));
            && CanEncode(t) && CanEncode(u)
            && (Collision(env.sha1, KexDerive.Encode(t), KexDerive.Encode(u))
                || (SameKeys(Pair(c', s'.0)) && c'.sessionId == s'.0.sessionId))
  {
    hide Prepared;
    hide ClientFinish;
    hide ServerReply;
    hide DhHash;
    hide ClientTranscript;
    hide ServerTranscript;
    hide CanEncode;
    hide Collision;
    hide KexDerive.Encode;
    hide FromKexinits;
    PreparedFromKexinits(env, c0, toClient, r.clientCookie, r.x);
    PreparedFromKexinits(env, s0, toServer, r.serverCookie, r.y);
    AcceptedMeansAgreed(env, Prepared(env, c0, toClient, r.clientCookie, r.x).value, reply,
                        Prepared(env, s0, toServer, r.serverCookie, r.y).value, clientPub);
  }

  /** The letters of section 7.2 of RFC 4253: A, C and E for what the client sends with, B, D and F
      for what the server sends with, each hashed with the session identifier. */
  lemma KeysHaveTheirLetters(env: Env, k: Kex, hash: Bytes, secret: nat)
    requires GoodEnv(env) && k.conf.Some? && k.sessionId.Some? && CanPutBignum(secret)
    ensures var (md, prefix) := (env.md(k.conf.value.kexType), Prefix(env.bugDerive, secret, hash));
            var c := DeriveKeys(env, k, hash, secret).value.conf.value;
            var (ctos, stoc) := if k.server then (c.inKeys, c.outKeys) else (c.outKeys, c.inKeys);
            && Begins(md, prefix, k.sessionId.value, ctos.iv, 'A')
            && Begins(md, prefix, k.sessionId.value, stoc.iv, 'B')
            && Begins(md, prefix, k.sessionId.value, ctos.key, 'C')
            && Begins(md, prefix, k.sessionId.value, stoc.key, 'D')
            && Begins(md, prefix, k.sessionId.value, ctos.macKey, 'E')
            && Begins(md, prefix, k.sessionId.value, stoc.macKey, 'F')
  {
    hide DerivedKey;
    hide Sized;
    hide Begins;
    var c, md, prefix, session := k.conf.value, env.md(k.conf.value.kexType), Prefix(env.bugDerive, secret, hash),
      k.sessionId.value;
    Lettered(md, prefix, session, c.need, 'A');
    Lettered(md, prefix, session, c.need, 'B');
    Lettered(md, prefix, session, c.need, 'C');
    Lettered(md, prefix, session, c.need, 'D');
    Lettered(md, prefix, session, c.need, 'E');
    Lettered(md, prefix, session, c.need, 'F');
  }

  ghost predicate Begins(md: Md, prefix: Bytes, session: Bytes, key: Bytes, letter: char)
  {
    |key| >= md.size && 'A' <= letter <= 'F' && key[..md.size] == md.digest(prefix + [letter as int] + session)
  }

  lemma Lettered(md: Md, prefix: Bytes, session: Bytes, need: nat, letter: char)
    requires Sized(md) && 'A' <= letter <= 'F'
    ensures Begins(md, prefix, session, DerivedKey(md, prefix, letter as int, session, need), letter)
  {
    DerivedKeyShape(md, prefix, letter as int, session, need);
  }

  // ----- When the negotiation succeeds

  ghost predicate Proposes(k: Kex, prop: Proposal)
  {
    CStrings(prop) && exists cookie: Cookie :: k.my == Kexinit(cookie, prop) && |k.my| <= SSHBUF_SIZE_MAX
  }

  lemma {:induction false} StringsSkipped(names: seq<Bytes>, rest: Bytes)
    requires CStrings(names)
    ensures SkipStrings(NamesBytes(names) + rest, |names|) == Ok(rest)
  {
    hide GetString;
    hide StringBytes;
    hide IsCString;
    hide StringFits;
    if names == [] {
      assert NamesBytes(names) + rest == rest;
    } else {
      var more := NamesBytes(names[1..]) + rest;
      FirstName(names, rest);
      StringRoundTrip(names[0], more);
      StringsSkipped(names[1..], rest);
    }
  }

  lemma KexinitChecks(cookie: Cookie, prop: Proposal)
    requires CStrings(prop)
    ensures CheckKexinit(Kexinit(cookie, prop)) == Ok(())
  {
    hide SkipStrings;
    hide NamesBytes;
    assert Kexinit(cookie, prop)[COOKIE_LEN..] == NamesBytes(prop) + Trailer();
    StringsSkipped(prop, Trailer());
    U32RoundTrip(0, []);
    assert Trailer()[1..] == U32Bytes(0) + [];
  }

  lemma KexinitSent(k: Kex, prop: Proposal, cookie: Cookie)
    requires Proposes(k, prop) && !k.initSent
    ensures SendKexinit(k, cookie) == Ok(k.(done := false, my := Kexinit(cookie, prop), initSent := true))
    ensures |Kexinit(cookie, prop)| <= SSHBUF_SIZE_MAX
  {
    hide NamesBytes;
    hide IsCString;
    var c: Cookie :| k.my == Kexinit(c, prop) && |k.my| <= SSHBUF_SIZE_MAX;
    assert Kexinit(c, prop)[COOKIE_LEN..] == NamesBytes(prop) + Trailer();
    assert cookie + (NamesBytes(prop) + Trailer()) == Kexinit(cookie, prop);
  }

  /** Whatever the cookies and the order, the opening succeeds exactly when the two proposals have a common
      choice everywhere. */
  lemma OpeningSucceeds(env: Env, pair: Pair, r: Randoms, cprop: Proposal, sprop: Proposal)
    requires Connected(pair) && Proposes(pair.client, cprop) && Proposes(pair.server, sprop)
    ensures Opening(env, pair, r).Ok? <==> Choose(env.tables, env.bugHmac, false, cprop, sprop).Ok?
  {
    hide OpenBoth;
    hide Opening;
    hide Proposes;
    OrderIsIndifferent(env, pair, r);
    BothSucceed(env, pair, r, cprop, sprop);
  }

  lemma BothSucceed(env: Env, pair: Pair, r: Randoms, cprop: Proposal, sprop: Proposal)
    requires Connected(pair) && Proposes(pair.client, cprop) && Proposes(pair.server, sprop)
    ensures OpenBoth(env, pair, r).Ok? <==> Choose(env.tables, env.bugHmac, false, cprop, sprop).Ok?
  {
    hide Choose;
    hide CheckKexinit;
    hide Buf2Prop;
    hide Kexinit;
    hide CStrings;
    hide Proposes;
    KexinitSent(pair.client, cprop, r.clientCookie);
    KexinitSent(pair.server, sprop, r.serverCookie);
    ProposesCStrings(pair.client, cprop);
    ProposesCStrings(pair.server, sprop);
    var c, s := Kexinit(r.clientCookie, cprop), Kexinit(r.serverCookie, sprop);
    KexinitChecks(r.clientCookie, cprop);
    KexinitChecks(r.serverCookie, sprop);
    ProposalRoundTrip(r.clientCookie, cprop);
    ProposalRoundTrip(r.serverCookie, sprop);
    NegotiationAgrees(env.tables, env.bugHmac, c, s);
    assert [] + c == c && [] + s == s;
  }

  lemma ProposesCStrings(k: Kex, prop: Proposal)
    requires Proposes(k, prop)
    ensures CStrings(prop)
  {
  }
}
