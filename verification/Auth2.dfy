/** The authentication state machine of ssh/auth2.c and ssh/auth2-chall.c (section 5.1 of RFC
    4252).  What a method or a keyboard-interactive device decides is part of the event. */
module Auth2 {
  import opened Wire
  import opened Match
  import opened Auth2Lists

  // ----- State

  /** The keyboard-interactive conversation: the devices still to try and the current one. */
  datatype Kbdint = Kbdint(devices: Option<string>, device: Option<string>)

  /** struct authctxt, and the switch with which `none` disables itself. */
  datatype Ctx = Ctx(attempt: nat, failures: nat, valid: bool, root: bool, user: string, service: string,
                     postponed: bool, serverCaused: bool, success: bool, lists: seq<string>, kbdint: Option<Kbdint>,
                     noneEnabled: bool)

  /** The server's configuration; `lookup` finds a user and tells whether it is root. */
  datatype Server = Server(opt: Options, maxTries: nat, lookup: string -> Option<bool>, rootAllowed: string -> bool)

  const START := Ctx(0, 0, false, false, "", "", false, false, false, [], None, true)

  datatype Fatal = InvalidUser | AuthenticatedPostponed | NotInLists | NoConversation

  /** What a handler leads to; `won` is the success it recorded, if any. */
  datatype Outcome = Next(ctx: Ctx, won: Option<Win>) | Disconnected | Dies(why: Fatal)

  /** What a method other than keyboard-interactive does with a request. */
  datatype Verdict = Verdict(authenticated: bool, postponed: bool, serverCaused: bool)

  /** The messages.  `starts` says whether a device starts its conversation, `again` whether it
      asks once more; `result` is 0 for success, 1 for more questions, else failure. */
  datatype Event =
    | Request(user: string, service: string, name: string, verdict: Verdict, devs: string, starts: bool)
    | InfoResponse(result: int, again: bool, starts: bool)

  // ----- userauth_finish

  function Finish(sv: Server, ctx: Ctx, authenticated: bool, name: string, sub: Option<string>): Outcome
  {
    if !ctx.valid && authenticated then Dies(InvalidUser)
    else if authenticated && ctx.postponed then Dies(AuthenticatedPostponed)
    else if !authenticated || (ctx.root && !sv.rootAllowed(name)) then Reply(sv, ctx, false, name, None)
    else Record(sv, ctx, Win(name, sub))
  }

  /** A success, against the lists if there are any. */
  function Record(sv: Server, ctx: Ctx, w: Win): Outcome
  {
    if sv.opt.configured == [] then Reply(sv, ctx, true, w.name, Some(w))
    else
      var u := UpdateLists(ctx.lists, w);
      if !u.found then Dies(NotInLists)
      else Reply(sv, ctx.(lists := u.lists), u.complete, w.name, Some(w))
  }

  function Reply(sv: Server, ctx: Ctx, authenticated: bool, name: string, won: Option<Win>): Outcome
  {
    if ctx.postponed then Next(ctx, won)
    else if authenticated then Next(ctx.(success := true), won)
    else
      var counts := !ctx.serverCaused && (ctx.attempt > 1 || name != NONE);
      var failures := if counts then ctx.failures + 1 else ctx.failures;
      if failures >= sv.maxTries then Disconnected else Next(ctx.(failures := failures), won)
  }

  // ----- Keyboard-interactive

  /** The last device that the lists allow and that the wanted name is a prefix of. */
  function FindDevice(opt: Options, lists: seq<string>, wanted: string, n: nat): (d: Option<string>)
    requires n <= |opt.devices|
    ensures d.Some? ==> d.value in opt.devices && Allowed(opt, lists, Win(KBDINT, d))
  {
    if n == 0 then None
    else if Allowed(opt, lists, Win(KBDINT, Some(opt.devices[n - 1]))) && wanted <= opt.devices[n - 1]
    then Some(opt.devices[n - 1])
    else FindDevice(opt, lists, wanted, n - 1)
  }

  /** kbdint_next_device. */
  function NextDevice(opt: Options, lists: seq<string>, devices: Option<string>): (k: Kbdint)
    ensures k.device.Some? ==> k.device.value in opt.devices && Allowed(opt, lists, Win(KBDINT, k.device))
    decreases if devices.Some? then |devices.value| else 0
  {
    if devices.None? || Comma(devices.value) == 0 then Kbdint(devices, None)
    else
      var devs := devices.value;
      var d := FindDevice(opt, lists, First(devs), |opt.devices|);
      var rest := if Comma(devs) < |devs| then Some(devs[Comma(devs) + 1..]) else None;
      if d.Some? || rest.None? then Kbdint(rest, d) else NextDevice(opt, lists, rest)
  }

  /** auth2_challenge_start. */
  function ChallengeStart(sv: Server, ctx: Ctx, devices: Option<string>, starts: bool): Ctx
  {
    var k := NextDevice(sv.opt, ctx.lists, devices);
    if k.device.None? || !starts then ctx.(kbdint := None) else ctx.(kbdint := Some(k), postponed := true)
  }

  function JoinNames(names: seq<string>): string
  {
    if names == [] then "" else if |names| == 1 then names[0] else names[0] + "," + JoinNames(names[1..])
  }

  // ----- The handlers

  function BaseUser(user: string): string { MethodOf(user) }

  /** The first request fixes the user and sets up the lists; None when no list is left. */
  function Begin(sv: Server, ctx: Ctx, user: string, service: string): Option<Ctx>
  {
    var pw := sv.lookup(user);
    var valid := pw.Some? && service == "ssh-connection";
    var lists := Setup(sv.opt, sv.opt.configured);
    if sv.opt.configured != [] && lists == [] then None
    else Some(ctx.(attempt := 1, valid := valid, root := valid && pw.value,
                   user := user, service := service, lists := lists))
  }

  /** authmethod_lookup. */
  predicate Usable(sv: Server, ctx: Ctx, name: string)
  {
    && name in sv.opt.methods && sv.opt.enabled(name) && (name == NONE ==> ctx.noneEnabled)
    && Allowed(sv.opt, ctx.lists, Win(name, None)) && ctx.failures < sv.maxTries
  }

  /** Whether the method succeeds; userauth_none tries the empty password if that is permitted. */
  predicate Authenticates(sv: Server, e: Event)
    requires e.Request?
  {
    e.verdict.authenticated && (e.name == NONE ==> sv.opt.emptyPassword)
  }

  /** The context after a method other than keyboard-interactive; `none` switches itself off. */
  function Called(ctx: Ctx, e: Event): Ctx
    requires e.Request?
  {
    if e.name == NONE then ctx.(noneEnabled := false)
    else ctx.(postponed := e.verdict.postponed, serverCaused := e.verdict.serverCaused)
  }

  /** The call of the method, for a context whose earlier conversation has been reset. */
  function Attempt(sv: Server, ctx: Ctx, e: Event): Outcome
    requires e.Request?
  {
    if !Usable(sv, ctx, e.name) then Finish(sv, ctx, false, e.name, None)
    else if e.name == KBDINT then
      var devs := if e.devs == "" then JoinNames(sv.opt.devices) else e.devs;
      Finish(sv, ChallengeStart(sv, ctx, Some(devs), e.starts), false, e.name, None)
    else
      Finish(sv, Called(ctx, e), Authenticates(sv, e), e.name, None)
  }

  function Reset(ctx: Ctx): Ctx { ctx.(kbdint := None, postponed := false, serverCaused := false) }

  /** input_userauth_request. */
  function InputRequest(sv: Server, ctx: Ctx, e: Event): Outcome
    requires e.Request?
  {
    var user := BaseUser(e.user);
    if ctx.attempt == 0 then
      var begun := Begin(sv, ctx, user, e.service);
      if begun.None? then Disconnected else Attempt(sv, Reset(begun.value), e)
    else if user != ctx.user || e.service != ctx.service then Disconnected
    else Attempt(sv, Reset(ctx.(attempt := ctx.attempt + 1)), e)
  }

  /** input_userauth_info_response. */
  function InputResponse(sv: Server, ctx: Ctx, e: Event): Outcome
    requires e.InfoResponse?
  {
    if ctx.kbdint.None? || ctx.kbdint.value.device.None? then Dies(NoConversation)
    else
      var k := ctx.kbdint.value;
      var asked := ctx.(postponed := e.result == 1 && e.again);
      var authenticated := e.result == 0 && ctx.valid;
      var after :=
        if asked.postponed then asked
        else if authenticated then asked.(kbdint := None)
        else ChallengeStart(sv, asked, k.devices, e.starts);
      Finish(sv, after, authenticated, KBDINT, k.device)
  }

  /** One message; after success the dispatch loop has ended. */
  function Step(sv: Server, ctx: Ctx, e: Event): Outcome
  {
    if ctx.success then Next(ctx, None)
    else match e
      case Request(_, _, _, _, _, _) => InputRequest(sv, ctx, e)
      case InfoResponse(_, _, _) => InputResponse(sv, ctx, e)
  }

  // ----- The same in place

  class Authctxt {
    var attempt: nat
    var failures: nat
    var valid: bool
    var root: bool
    var user: string
    var service: string
    var postponed: bool
    var serverCaused: bool
    var success: bool
    var lists: seq<string>
    var kbdint: Option<Kbdint>
    var noneEnabled: bool

    function State(): Ctx
      reads this
    {
      Ctx(attempt, failures, valid, root, user, service, postponed, serverCaused, success, lists, kbdint, noneEnabled)
    }

    /** What a handler keeps, whatever its outcome: the person, the number of lists, at most one
        more failure, and no success for an invalid user or while something is postponed. */
    twostate predicate Keeps()
      reads this
    {
      && SamePerson(State(), old(State())) && |lists| == |old(lists)| && old(failures) <= failures <= old(failures) + 1
      && (success && !old(success) ==> !postponed)
    }

    constructor ()
      ensures State() == START
    {
      attempt, failures, valid, root, user, service := 0, 0, false, false, "", "";
      postponed, serverCaused, success, lists, kbdint, noneEnabled := false, false, false, [], None, true;
    }

    /** userauth_finish. */
    method FinishInPlace(sv: Server, authenticated: bool, name: string, sub: Option<string>) returns (o: Outcome)
      modifies this
      ensures o == Finish(sv, old(State()), authenticated, name, sub) && (o.Next? ==> State() == o.ctx)
      ensures Keeps() && (success && !old(success) ==> valid)
    {
      hide UpdateLists;
      hide Reply;
      if !valid && authenticated { return Dies(InvalidUser); }
      if authenticated && postponed { return Dies(AuthenticatedPostponed); }
      if !authenticated || (root && !sv.rootAllowed(name)) {
        o := ReplyInPlace(sv, false, name, None);
        return;
      }
      var complete := true;
      if sv.opt.configured != [] {
        var u := UpdateListsLoop(lists, Win(name, sub));
        if !u.found { return Dies(NotInLists); }
        lists := u.lists;
        complete := u.complete;
      }
      o := ReplyInPlace(sv, complete, name, Some(Win(name, sub)));
    }

    /** Its second half: success, or a failure that may be one too many. */
    method ReplyInPlace(sv: Server, authenticated: bool, name: string, won: Option<Win>) returns (o: Outcome)
      modifies this
      ensures o == Reply(sv, old(State()), authenticated, name, won) && (o.Next? ==> State() == o.ctx)
      ensures Keeps() && lists == old(lists) && (success && !old(success) ==> authenticated)
    {
      if postponed { return Next(State(), won); }
      if authenticated {
        success := true;
        return Next(State(), won);
      }
      if !serverCaused && (attempt > 1 || name != "none") { failures := failures + 1; }
      if failures >= sv.maxTries { return Disconnected; }
      return Next(State(), won);
    }

    /** The loop over the devices, the last that fits winning. */
    method FindDeviceLoop(opt: Options, wanted: string) returns (d: Option<string>)
      ensures d == FindDevice(opt, lists, wanted, |opt.devices|)
    {
      hide Allowed;
      d := None;
      for i := 0 to |opt.devices|
        invariant d == FindDevice(opt, lists, wanted, i)
      {
        var allowed := MethodAllowed(opt, lists, Win(KBDINT, Some(opt.devices[i])));
        if allowed && wanted <= opt.devices[i] { d := Some(opt.devices[i]); }
      }
    }

    method NextDeviceLoop(opt: Options, devices0: Option<string>) returns (k: Kbdint)
      ensures k == NextDevice(opt, lists, devices0)
    {
      hide FindDevice;
      var devices, device := devices0, None;
      while device.None? && devices.Some? && Comma(devices.value) != 0
        invariant device.None? ==> NextDevice(opt, lists, devices) == NextDevice(opt, lists, devices0)
        invariant device.Some? ==> NextDevice(opt, lists, devices0) == Kbdint(devices, device)
        decreases if devices.Some? then |devices.value| + 1 else 0
      {
        var devs := devices.value;
        device := FindDeviceLoop(opt, devs[..Comma(devs)]);
        devices := if Comma(devs) < |devs| then Some(devs[Comma(devs) + 1..]) else None;
      }
      return Kbdint(devices, device);
    }

    method ChallengeStartInPlace(sv: Server, devices: Option<string>, starts: bool)
      modifies this
      ensures State() == ChallengeStart(sv, old(State()), devices, starts)
      ensures Keeps() && lists == old(lists) && failures == old(failures) && success == old(success)
    {
      hide NextDevice;
      var k := NextDeviceLoop(sv.opt, devices);
      if k.device.None? || !starts {
        kbdint := None;
        return;
      }
      kbdint := Some(k);
      postponed := true;
    }

    method AttemptInPlace(sv: Server, e: Event) returns (o: Outcome)
      requires e.Request?
      modifies this
      ensures o == Attempt(sv, old(State()), e) && (o.Next? ==> State() == o.ctx)
      ensures Keeps() && (success && !old(success) ==> valid)
    {
      hide Finish;
      hide ChallengeStart;
      hide Allowed;
      var authenticated := false;
      var allowed := MethodAllowed(sv.opt, lists, Win(e.name, None));
      var enabled := sv.opt.enabled(e.name) && (e.name == NONE ==> noneEnabled);
      if e.name in sv.opt.methods && enabled && allowed && failures < sv.maxTries {
        if e.name == KBDINT {
          var devs := if e.devs == "" then JoinNames(sv.opt.devices) else e.devs;
          ChallengeStartInPlace(sv, Some(devs), e.starts);
        } else if e.name == NONE {
          noneEnabled := false;
          authenticated := e.verdict.authenticated && sv.opt.emptyPassword;
        } else {
          postponed, serverCaused := e.verdict.postponed, e.verdict.serverCaused;
          authenticated := e.verdict.authenticated;
        }
      }
      o := FinishInPlace(sv, authenticated, e.name, None);
    }

    /** The part of input_userauth_request for the first attempt. */
    method BeginInPlace(sv: Server, name: string, wanted: string) returns (ok: bool)
      modifies this
      ensures ok == Begin(sv, old(State()), name, wanted).Some?
      ensures ok ==> State() == Begin(sv, old(State()), name, wanted).value
      ensures attempt == 1 && failures == old(failures) && success == old(success) && kbdint == old(kbdint)
    {
      hide Setup;
      attempt := 1;
      var pw := sv.lookup(name);
      valid := pw.Some? && wanted == "ssh-connection";
      root := valid && pw.value;
      user, service := name, wanted;
      lists, ok := SetupLists(sv.opt);
    }

    /** input_userauth_request. */
    method InputRequestInPlace(sv: Server, e: Event) returns (o: Outcome)
      requires e.Request?
      modifies this
      ensures o == InputRequest(sv, old(State()), e) && (o.Next? ==> State() == o.ctx)
      ensures attempt == old(attempt) + 1 && old(failures) <= failures <= old(failures) + 1
      ensures old(attempt) > 0 ==>
                user == old(user) && service == old(service) && valid == old(valid) && root == old(root)
      ensures success && !old(success) ==> valid && !postponed
    {
      hide Attempt;
      hide Begin;
      hide BaseUser;
      var name := BaseUser(e.user);
      if attempt == 0 {
        var ok := BeginInPlace(sv, name, e.service);
        if !ok { return Disconnected; }
      } else {
        attempt := attempt + 1;
        if name != user || e.service != service { return Disconnected; }
      }
      kbdint, postponed, serverCaused := None, false, false;
      o := AttemptInPlace(sv, e);
    }

    /** input_userauth_info_response. */
    method InputResponseInPlace(sv: Server, e: Event) returns (o: Outcome)
      requires e.InfoResponse?
      modifies this
      ensures o == InputResponse(sv, old(State()), e) && (o.Next? ==> State() == o.ctx)
      ensures Keeps() && (success && !old(success) ==> valid)
    {
      hide Finish;
      hide ChallengeStart;
      if kbdint.None? || kbdint.value.device.None? { return Dies(NoConversation); }
      var k := kbdint.value;
      postponed := false;
      var authenticated := e.result == 0 && valid;
      if e.result == 1 && e.again { postponed := true; }
      if !postponed {
        if authenticated { kbdint := None; } else { ChallengeStartInPlace(sv, k.devices, e.starts); }
      }
      o := FinishInPlace(sv, authenticated, KBDINT, k.device);
    }
  }

  // ----- Runs

  /** A context with the successes recorded and the requests seen on the way to it. */
  datatype Run = Run(ctx: Ctx, wins: seq<Win>, requests: seq<Event>) | Ended(why: Option<Fatal>)

  function Extend(sv: Server, run: Run, e: Event): Run
    requires run.Run?
  {
    match Step(sv, run.ctx, e)
    case Disconnected => Ended(None)
    case Dies(why) => Ended(Some(why))
    case Next(ctx, won) =>
      Run(ctx, if won.Some? then run.wins + [won.value] else run.wins,
          if e.Request? && !run.ctx.success then run.requests + [e] else run.requests)
  }

  function RunOf(sv: Server, events: seq<Event>): Run
  {
    if events == [] then Run(START, [], [])
    else
      var before := RunOf(sv, events[..|events| - 1]);
      if before.Run? then Extend(sv, before, events[|events| - 1]) else before
  }

  // ----- What a list has gone through

  /** The elements were hit by successes in this order. */
  ghost predicate Covers(wins: seq<Win>, elements: seq<string>)
    decreases |wins|
  {
    if elements == [] then true
    else if wins == [] then false
    else
      var w, n, m := wins[|wins| - 1], |wins| - 1, |elements| - 1;
      (Hits(elements[m], w) && Covers(wins[..n], elements[..m])) || Covers(wins[..n], elements)
  }

  lemma {:induction false} CoversMore(wins: seq<Win>, w: Win, elements: seq<string>)
    requires Covers(wins, elements)
    ensures Covers(wins + [w], elements)
  {
    assert (wins + [w])[..|wins|] == wins;
  }

  lemma {:induction false} CoversNext(wins: seq<Win>, w: Win, elements: seq<string>, x: string)
    requires Covers(wins, elements) && Hits(x, w)
    ensures Covers(wins + [w], elements + [x])
  {
    hide Hits;
    assert (wins + [w])[..|wins|] == wins;
    assert (elements + [x])[..|elements|] == elements;
  }

  /** `list` is the configured list from some element on, and the elements before were hit. */
  ghost predicate Progress(list: string, configured: string, wins: seq<Win>)
  {
    exists k: nat | k <= |Elements(configured)| ::
      list == From(configured, k) && Covers(wins, Elements(configured)[..k])
  }

  lemma ProgressMore(list: string, configured: string, wins: seq<Win>, w: Win)
    requires Progress(list, configured, wins)
    ensures Progress(list, configured, wins + [w])
  {
    hide Covers;
    hide From;
    var k: nat :| k <= |Elements(configured)| && list == From(configured, k) && Covers(wins, Elements(configured)[..k]);
    CoversMore(wins, w, Elements(configured)[..k]);
  }

  lemma ProgressNext(list: string, configured: string, wins: seq<Win>, w: Win)
    requires Progress(list, configured, wins) && list != "" && Hits(First(list), w)
    ensures Progress(AfterComma(list), configured, wins + [w])
  {
    hide Covers;
    hide From;
    hide Hits;
    hide AfterComma;
    var all := Elements(configured);
    var k: nat :| k <= |all| && list == From(configured, k) && Covers(wins, all[..k]);
    ElementsFrom(configured, k);
    assert all[k..] == [First(list)] + Elements(AfterComma(list));
    assert First(list) == all[k..][0] == all[k];
    CoversNext(wins, w, all[..k], all[k]);
    assert all[..k] + [all[k]] == all[..k + 1];
    FromNext(configured, k);
  }

  lemma {:induction false} ProgressDone(configured: string, wins: seq<Win>)
    requires Progress("", configured, wins)
    ensures Covers(wins, Elements(configured))
  {
    hide Covers;
    hide From;
    var all := Elements(configured);
    var k: nat :| k <= |all| && "" == From(configured, k) && Covers(wins, all[..k]);
    ElementsFrom(configured, k);
    assert all[..k] == all;
  }

  ghost predicate AllProgress(lists: seq<string>, configured: seq<string>, wins: seq<Win>)
  {
    |lists| == |configured| && forall i | 0 <= i < |lists| :: Progress(lists[i], configured[i], wins)
  }

  ghost predicate SomeCovered(configured: seq<string>, wins: seq<Win>)
  {
    exists i | 0 <= i < |configured| :: Covers(wins, Elements(configured[i]))
  }

  lemma HeadProgress(list: string, configured: string, wins: seq<Win>, w: Win)
    requires Progress(list, configured, wins) && GoodWin(w)
    ensures Removes(list, w) ==> Progress(Remainder(list, w), configured, wins + [w])
    ensures Progress(list, configured, wins + [w])
  {
    hide Progress;
    ProgressMore(list, configured, wins, w);
    if Removes(list, w) {
      RemainderIsRest(list, w);
      ProgressNext(list, configured, wins, w);
    }
  }

  lemma {:induction false} AllProgressMore(lists: seq<string>, configured: seq<string>, wins: seq<Win>, w: Win)
    requires AllProgress(lists, configured, wins)
    ensures AllProgress(lists, configured, wins + [w])
  {
    hide Progress;
    forall i | 0 <= i < |lists| ensures Progress(lists[i], configured[i], wins + [w]) {
      ProgressMore(lists[i], configured[i], wins, w);
    }
  }

  /** One success moves every list that starts with it one element on. */
  lemma {:induction false} UpdateProgress(lists: seq<string>, configured: seq<string>, wins: seq<Win>, w: Win)
    requires AllProgress(lists, configured, wins) && GoodWin(w)
    ensures AllProgress(UpdateLists(lists, w).lists, configured, wins + [w])
    ensures UpdateLists(lists, w).complete ==> SomeCovered(configured, wins + [w])
  {
    hide Progress;
    hide Covers;
    hide Removes;
    hide Remainder;
    if lists != [] {
      var rest, crest := lists[1..], configured[1..];
      assert AllProgress(rest, crest, wins);
      HeadProgress(lists[0], configured[0], wins, w);
      if Removes(lists[0], w) && Remainder(lists[0], w) == "" {
        ProgressDone(configured[0], wins + [w]);
        AllProgressMore(rest, crest, wins, w);
        PutBack(rest, configured, wins + [w], "");
      } else {
        UpdateProgress(rest, crest, wins, w);
        SomeCoveredTail(configured, wins + [w]);
        var head := if Removes(lists[0], w) then Remainder(lists[0], w) else lists[0];
        PutBack(UpdateLists(rest, w).lists, configured, wins + [w], head);
      }
    }
  }

  lemma PutBack(rest: seq<string>, configured: seq<string>, wins: seq<Win>, head: string)
    requires configured != [] && AllProgress(rest, configured[1..], wins) && Progress(head, configured[0], wins)
    ensures AllProgress([head] + rest, configured, wins)
  {
    hide Progress;
  }

  lemma SomeCoveredTail(configured: seq<string>, wins: seq<Win>)
    requires configured != []
    ensures SomeCovered(configured[1..], wins) ==> SomeCovered(configured, wins)
  {
    hide Covers;
    if SomeCovered(configured[1..], wins) {
      var i :| 0 <= i < |configured| - 1 && Covers(wins, Elements(configured[1..][i]));
      assert configured[1..][i] == configured[i + 1];
    }
  }

  // ----- The invariant

  ghost function Lists(sv: Server): seq<string> { Setup(sv.opt, sv.opt.configured) }

  /** A list was completed, or none is configured. */
  ghost predicate Completed(sv: Server, wins: seq<Win>)
  {
    wins != [] && (sv.opt.configured == [] || SomeCovered(Lists(sv), wins))
  }

  ghost predicate ListsInv(sv: Server, ctx: Ctx, wins: seq<Win>)
  {
    && (ctx.attempt > 0 ==> AllProgress(ctx.lists, Lists(sv), wins))
    && (ctx.success ==> ctx.valid && !ctx.postponed && Completed(sv, wins))
    && (sv.maxTries > 0 ==> ctx.failures < sv.maxTries)
    && RootOk(sv, ctx.root, wins)
  }

  /** Root only ever succeeds with methods that root may use. */
  ghost predicate RootOk(sv: Server, root: bool, wins: seq<Win>)
  {
    root ==> forall i | 0 <= i < |wins| :: sv.rootAllowed(wins[i].name)
  }

  ghost predicate SamePerson(c: Ctx, d: Ctx)
  {
    c.attempt == d.attempt && c.user == d.user && c.service == d.service && c.valid == d.valid && c.root == d.root
  }

  /** A valid user is one that the lookup finds, asking for the connection service. */
  ghost predicate UserInv(sv: Server, ctx: Ctx)
  {
    && (ctx.valid <==> sv.lookup(ctx.user).Some? && ctx.service == "ssh-connection")
    && (ctx.root <==> ctx.valid && sv.lookup(ctx.user).value)
  }

  /** The current device is one that the lists allow. */
  ghost predicate DeviceInv(sv: Server, ctx: Ctx)
  {
    ctx.kbdint.Some? && ctx.kbdint.value.device.Some? ==>
      && ctx.kbdint.value.device.value in sv.opt.devices
      && Allowed(sv.opt, ctx.lists, Win(KBDINT, ctx.kbdint.value.device))
  }

  ghost predicate SameUser(ctx: Ctx, requests: seq<Event>)
  {
    forall i | 0 <= i < |requests| ::
      requests[i].Request? && BaseUser(requests[i].user) == ctx.user && requests[i].service == ctx.service
  }

  ghost predicate Inv(sv: Server, run: Run)
    requires run.Run?
  {
    && (run.ctx.attempt == 0 ==> run == Run(START, [], []))
    && (run.ctx.attempt > 0 ==> UserInv(sv, run.ctx))
    && ListsInv(sv, run.ctx, run.wins) && DeviceInv(sv, run.ctx) && SameUser(run.ctx, run.requests)
  }

  function Won(wins: seq<Win>, won: Option<Win>): seq<Win> { if won.Some? then wins + [won.value] else wins }

  lemma ReplyKeeps(sv: Server, ctx: Ctx, authenticated: bool, name: string, won: Option<Win>, wins: seq<Win>)
    requires ListsInv(sv, ctx, wins) && !ctx.success && (authenticated ==> ctx.valid && Completed(sv, wins))
    ensures var o := Reply(sv, ctx, authenticated, name, won);
            o.Next? ==> o.won == won && ListsInv(sv, o.ctx, wins)
                        && o.ctx == ctx.(success := o.ctx.success, failures := o.ctx.failures)
  {
    hide AllProgress;
    hide Completed;
  }

  lemma RecordKeeps(sv: Server, ctx: Ctx, w: Win, wins: seq<Win>)
    requires ListsInv(sv, ctx, wins) && ctx.attempt > 0 && !ctx.success && GoodWin(w) && ctx.valid
    requires ctx.root ==> sv.rootAllowed(w.name)
    ensures var o := Record(sv, ctx, w);
            o.Next? ==> o.won == Some(w) && ListsInv(sv, o.ctx, wins + [w])
                        && o.ctx == ctx.(lists := o.ctx.lists, success := o.ctx.success, failures := o.ctx.failures)
  {
    hide AllProgress;
    hide SomeCovered;
    hide Reply;
    hide UpdateLists;
    if sv.opt.configured == [] {
      AllProgressMore(ctx.lists, Lists(sv), wins, w);
      ReplyKeeps(sv, ctx, true, w.name, Some(w), wins + [w]);
    } else {
      var u := UpdateLists(ctx.lists, w);
      if u.found {
        UpdateProgress(ctx.lists, Lists(sv), wins, w);
        ReplyKeeps(sv, ctx.(lists := u.lists), u.complete, w.name, Some(w), wins + [w]);
      }
    }
  }

  lemma FinishKeeps(sv: Server, ctx: Ctx, authenticated: bool, name: string, sub: Option<string>, wins: seq<Win>)
    requires ListsInv(sv, ctx, wins) && DeviceInv(sv, ctx) && ctx.attempt > 0 && !ctx.success
    requires authenticated ==> GoodWin(Win(name, sub)) && ctx.kbdint.None?
    ensures var o := Finish(sv, ctx, authenticated, name, sub);
            o.Next? ==> ListsInv(sv, o.ctx, Won(wins, o.won)) && DeviceInv(sv, o.ctx)
                        && SamePerson(o.ctx, ctx)
  {
    hide ListsInv;
    hide Record;
    hide Reply;
    hide Allowed;
    if authenticated && ctx.valid && !ctx.postponed && !(ctx.root && !sv.rootAllowed(name)) {
      RecordKeeps(sv, ctx, Win(name, sub), wins);
    } else if !authenticated || (ctx.valid && !ctx.postponed) {
      ReplyKeeps(sv, ctx, false, name, None, wins);
    }
  }

  lemma StartKeeps(sv: Server, ctx: Ctx, devices: Option<string>, starts: bool, wins: seq<Win>)
    requires ListsInv(sv, ctx, wins) && !ctx.success
    ensures var c := ChallengeStart(sv, ctx, devices, starts);
            && ListsInv(sv, c, wins) && DeviceInv(sv, c) && c == ctx.(kbdint := c.kbdint, postponed := c.postponed)
  {
    hide AllProgress;
    hide Allowed;
    hide NextDevice;
  }

  lemma AttemptKeeps(sv: Server, ctx: Ctx, e: Event, wins: seq<Win>)
    requires GoodNames(sv.opt) && e.Request?
    requires ListsInv(sv, ctx, wins) && ctx.attempt > 0 && !ctx.success && ctx.kbdint.None?
    ensures var o := Attempt(sv, ctx, e);
            o.Next? ==> ListsInv(sv, o.ctx, Won(wins, o.won)) && DeviceInv(sv, o.ctx)
                        && SamePerson(o.ctx, ctx)
  {
    hide AllProgress;
    hide Completed;
    hide Finish;
    hide Allowed;
    hide ChallengeStart;
    if !Usable(sv, ctx, e.name) {
      FinishKeeps(sv, ctx, false, e.name, None, wins);
    } else if e.name == KBDINT {
      var devs := if e.devs == "" then JoinNames(sv.opt.devices) else e.devs;
      StartKeeps(sv, ctx, Some(devs), e.starts, wins);
      FinishKeeps(sv, ChallengeStart(sv, ctx, Some(devs), e.starts), false, e.name, None, wins);
    } else {
      FinishKeeps(sv, Called(ctx, e), Authenticates(sv, e), e.name, None, wins);
    }
  }

  lemma {:induction false} BeginProgress(lists: seq<string>)
    ensures AllProgress(lists, lists, [])
  {
    forall i | 0 <= i < |lists| ensures Progress(lists[i], lists[i], []) {
      assert From(lists[i], 0) == lists[i] && Elements(lists[i])[..0] == [];
    }
  }

  lemma RequestKeeps(sv: Server, run: Run, e: Event)
    requires GoodNames(sv.opt) && run.Run? && Inv(sv, run) && e.Request? && !run.ctx.success
    ensures var o := InputRequest(sv, run.ctx, e);
            o.Next? ==> o.ctx.attempt > 0 && ListsInv(sv, o.ctx, Won(run.wins, o.won)) && DeviceInv(sv, o.ctx)
                        && SameUser(o.ctx, run.requests + [e]) && UserInv(sv, o.ctx)
  {
    hide AllProgress;
    hide Completed;
    hide Attempt;
    hide Allowed;
    hide BaseUser;
    BeginProgress(Lists(sv));
    if run.ctx.attempt == 0 {
      var begun := Begin(sv, run.ctx, BaseUser(e.user), e.service);
      if begun.Some? { AttemptKeeps(sv, Reset(begun.value), e, []); }
    } else {
      AttemptKeeps(sv, Reset(run.ctx.(attempt := run.ctx.attempt + 1)), e, run.wins);
    }
  }

  lemma ResponseKeeps(sv: Server, run: Run, e: Event)
    requires GoodNames(sv.opt) && run.Run? && Inv(sv, run) && e.InfoResponse? && !run.ctx.success
    ensures var o := InputResponse(sv, run.ctx, e);
            o.Next? ==> o.ctx.attempt > 0 && ListsInv(sv, o.ctx, Won(run.wins, o.won)) && DeviceInv(sv, o.ctx)
                        && SameUser(o.ctx, run.requests) && UserInv(sv, o.ctx)
  {
    hide AllProgress;
    hide Completed;
    hide Finish;
    hide Allowed;
    hide ChallengeStart;
    hide BaseUser;
    var ctx := run.ctx;
    if ctx.kbdint.Some? && ctx.kbdint.value.device.Some? {
      var k := ctx.kbdint.value;
      var asked := ctx.(postponed := e.result == 1 && e.again);
      var authenticated := e.result == 0 && ctx.valid;
      GoodDevice(sv, k.device.value);
      if asked.postponed {
        FinishKeeps(sv, asked, authenticated, KBDINT, k.device, run.wins);
      } else if authenticated {
        FinishKeeps(sv, asked.(kbdint := None), true, KBDINT, k.device, run.wins);
      } else {
        StartKeeps(sv, asked, k.devices, e.starts, run.wins);
        FinishKeeps(sv, ChallengeStart(sv, asked, k.devices, e.starts), false, KBDINT, k.device, run.wins);
      }
    }
  }

  lemma GoodDevice(sv: Server, d: string)
    requires GoodNames(sv.opt) && d in sv.opt.devices
    ensures GoodWin(Win(KBDINT, Some(d)))
  {
    PlainKbdint();
  }

  lemma PlainKbdint()
    ensures Plain(KBDINT) && KBDINT != ""
  {
  }

  lemma ExtendKeeps(sv: Server, run: Run, e: Event)
    requires GoodNames(sv.opt) && run.Run? && Inv(sv, run)
    ensures Extend(sv, run, e).Run? ==> Inv(sv, Extend(sv, run, e))
  {
    hide ListsInv;
    hide DeviceInv;
    hide InputRequest;
    hide InputResponse;
    hide SameUser;
    hide UserInv;
    hide GoodNames;
    if !run.ctx.success {
      if e.Request? { RequestKeeps(sv, run, e); } else { ResponseKeeps(sv, run, e); }
    }
  }

  /** Every context that can be reached satisfies the invariant. */
  lemma {:induction false} RunKeepsInv(sv: Server, events: seq<Event>)
    requires GoodNames(sv.opt)
    ensures RunOf(sv, events).Run? ==> Inv(sv, RunOf(sv, events))
  {
    hide Extend;
    if events == [] {
      StartInv(sv);
    } else {
      RunKeepsInv(sv, events[..|events| - 1]);
      var before := RunOf(sv, events[..|events| - 1]);
      if before.Run? { ExtendKeeps(sv, before, events[|events| - 1]); }
    }
  }

  lemma StartInv(sv: Server)
    ensures Inv(sv, Run(START, [], []))
  {
  }

  // ----- The theorems

  /** Success in any run means: a valid user, nothing postponed, the same user and service in
      every request, and, with AuthenticationMethods, successes that go through all elements of
      some enabled configured list in order. */
  lemma {:induction false} SuccessIsEarned(sv: Server, events: seq<Event>)
    requires GoodNames(sv.opt)
    ensures var run := RunOf(sv, events);
            run.Run? && run.ctx.success ==>
              && run.ctx.valid && !run.ctx.postponed && run.wins != [] && SameUser(run.ctx, run.requests)
              && sv.lookup(run.ctx.user).Some? && run.ctx.service == "ssh-connection"
              && RootOk(sv, sv.lookup(run.ctx.user).value, run.wins)
              && (sv.opt.configured != [] ==>
                    exists i | 0 <= i < |sv.opt.configured| ::
                      MethodsValid(sv.opt, true, sv.opt.configured[i])
                      && Covers(run.wins, Elements(sv.opt.configured[i])))
  {
    hide Covers;
    hide MethodsValid;
    RunKeepsInv(sv, events);
    var run := RunOf(sv, events);
    if run.Run? && run.ctx.success && sv.opt.configured != [] {
      var i :| 0 <= i < |Lists(sv)| && Covers(run.wins, Elements(Lists(sv)[i]));
      SetupIsConfigured(sv.opt, sv.opt.configured, Lists(sv)[i]);
    }
  }

  /** No run goes on after max_authtries failures, with partial successes counting as failures. */
  lemma {:induction false} TriesAreLimited(sv: Server, events: seq<Event>)
    requires GoodNames(sv.opt) && sv.maxTries > 0
    ensures RunOf(sv, events).Run? ==> RunOf(sv, events).ctx.failures < sv.maxTries
  {
    RunKeepsInv(sv, events);
  }

  /** Every list is at all times a configured list from one of its elements on. */
  lemma {:induction false} ListsAreSuffixes(sv: Server, events: seq<Event>, i: nat)
    requires GoodNames(sv.opt) && RunOf(sv, events).Run? && RunOf(sv, events).ctx.attempt > 0
    requires i < |RunOf(sv, events).ctx.lists|
    ensures var run := RunOf(sv, events);
            |run.ctx.lists| == |Lists(sv)| && Progress(run.ctx.lists[i], Lists(sv)[i], run.wins)
  {
    hide Progress;
    RunKeepsInv(sv, events);
  }

  // ----- The error that should not happen

  /** No enabled list names a submethod of anything but keyboard-interactive. */
  ghost predicate ColonFree(sv: Server)
  {
    forall i, x | 0 <= i < |Lists(sv)| && x in Elements(Lists(sv)[i]) :: ':' !in x || MethodOf(x) == KBDINT
  }

  lemma {:induction false} MethodOfPrefix(name: string, x: string)
    requires ':' !in name && name + ":" <= x
    ensures MethodOf(x) == name && ':' in x
  {
    assert x[|name|] == ':';
    if name != "" {
      assert name[0] in name;
      MethodOfPrefix(name[1..], x[1..]);
    }
  }

  lemma {:induction false} HeadIsElement(list: string, configured: string, wins: seq<Win>)
    requires Progress(list, configured, wins) && list != ""
    ensures First(list) in Elements(configured)
  {
    hide Covers;
    hide From;
    var all := Elements(configured);
    var k: nat :| k <= |all| && list == From(configured, k) && Covers(wins, all[..k]);
    ElementsFrom(configured, k);
    assert First(list) == all[k..][0] == all[k];
  }

  /** Without such elements, what the lists allow they also contain. */
  lemma {:induction false} AllowedIsFound(sv: Server, ctx: Ctx, wins: seq<Win>, w: Win)
    requires AllProgress(ctx.lists, Lists(sv), wins) && GoodWin(w) && sv.opt.configured != []
    requires Allowed(sv.opt, ctx.lists, w)
    requires w.sub.None? ==> ColonFree(sv) && w.name != KBDINT
    ensures UpdateLists(ctx.lists, w).found
  {
    hide Progress;
    hide StartsWith;
    hide First;
    hide Hits;
    hide Elements;
    var i :| 0 <= i < |ctx.lists| && StartsWith(ctx.lists[i], w) != NoMatch;
    StartsWithFirst(ctx.lists[i], w);
    FoundIff(ctx.lists, w);
    if w.sub.None? && w.name + ":" <= First(ctx.lists[i]) {
      MethodOfPrefix(w.name, First(ctx.lists[i]));
      NotEmpty(ctx.lists[i], w.name);
      HeadIsElement(ctx.lists[i], Lists(sv)[i], wins);
    }
  }

  lemma NotEmpty(list: string, name: string)
    requires name + ":" <= First(list)
    ensures list != ""
  {
  }

  lemma AttemptNotFatal(sv: Server, ctx: Ctx, e: Event, wins: seq<Win>)
    requires GoodNames(sv.opt) && ColonFree(sv) && e.Request?
    requires AllProgress(ctx.lists, Lists(sv), wins)
    ensures Attempt(sv, ctx, e) != Dies(NotInLists)
  {
    hide AllProgress;
    hide UpdateLists;
    hide Allowed;
    hide ColonFree;
    if Usable(sv, ctx, e.name) && e.name != KBDINT && sv.opt.configured != [] {
      AllowedIsFound(sv, ctx, wins, Win(e.name, None));
    }
  }

  lemma ResponseNotFatal(sv: Server, run: Run, e: Event)
    requires GoodNames(sv.opt) && run.Run? && Inv(sv, run) && e.InfoResponse?
    ensures InputResponse(sv, run.ctx, e) != Dies(NotInLists)
  {
    hide AllProgress;
    hide UpdateLists;
    hide Allowed;
    hide BaseUser;
    hide NextDevice;
    var ctx := run.ctx;
    if ctx.kbdint.Some? && ctx.kbdint.value.device.Some? && sv.opt.configured != [] {
      GoodDevice(sv, ctx.kbdint.value.device.value);
      AllowedIsFound(sv, ctx, run.wins, Win(KBDINT, ctx.kbdint.value.device));
    }
  }

  lemma StepNotFatal(sv: Server, run: Run, e: Event)
    requires GoodNames(sv.opt) && ColonFree(sv) && run.Run? && Inv(sv, run)
    ensures Step(sv, run.ctx, e) != Dies(NotInLists)
  {
    hide AllProgress;
    hide Attempt;
    hide InputResponse;
    hide ColonFree;
    hide Allowed;
    if e.InfoResponse? {
      ResponseNotFatal(sv, run, e);
    } else {
      BeginProgress(Lists(sv));
      var begun := Begin(sv, run.ctx, BaseUser(e.user), e.service);
      if run.ctx.attempt > 0 {
        AttemptNotFatal(sv, Reset(run.ctx.(attempt := run.ctx.attempt + 1)), e, run.wins);
      } else if begun.Some? {
        AttemptNotFatal(sv, Reset(begun.value), e, []);
      }
    }
  }

  /** With such a configuration the fatal error is unreachable in every run. */
  lemma {:induction false} NeverFatal(sv: Server, events: seq<Event>)
    requires GoodNames(sv.opt) && ColonFree(sv)
    ensures RunOf(sv, events) != Ended(Some(NotInLists))
  {
    hide Step;
    hide ColonFree;
    hide Inv;
    if events != [] {
      NeverFatal(sv, events[..|events| - 1]);
      RunKeepsInv(sv, events[..|events| - 1]);
      var before := RunOf(sv, events[..|events| - 1]);
      if before.Run? { StepNotFatal(sv, before, events[|events| - 1]); }
    }
  }

  /** Otherwise it is not: the first element of the only list has a submethod, its method is not
      keyboard-interactive and succeeds.  authmethod_lookup lets it through, and then no list
      starts with it. */
  lemma {:induction false} SubmethodDies(sv: Server, user: string, name: string)
    requires GoodNames(sv.opt) && |sv.opt.configured| == 1 && MethodsValid(sv.opt, true, sv.opt.configured[0])
    requires name + ":" <= First(sv.opt.configured[0]) && name in sv.opt.methods && name != KBDINT && ':' !in user
    requires sv.lookup(user) == Some(false) && sv.maxTries > 0 && (name == NONE ==> sv.opt.emptyPassword)
    ensures RunOf(sv, [Request(user, "ssh-connection", name, Verdict(true, false, false), "", false)])
            == Ended(Some(NotInLists))
  {
    hide MethodsValid;
    hide First;
    var list := sv.opt.configured[0];
    var e := Request(user, "ssh-connection", name, Verdict(true, false, false), "", false);
    var w := Win(name, None);
    OnlyList(sv);
    WholeUser(user);
    StartsWithFirst(list, w);
    FoundIff([list], w);
    EnabledHead(sv.opt, list, name);
    assert [e][..0] == [];
    assert RunOf(sv, []) == Run(START, [], []);
    assert Usable(sv, START.(lists := [list]), name) by { assert Lists(sv)[0] == list; }
  }

  /** In any one context: a success is fatal exactly when no list starts with its method. */
  lemma FatalIff(sv: Server, ctx: Ctx, w: Win)
    requires GoodWin(w) && ctx.valid && !ctx.postponed && !(ctx.root && !sv.rootAllowed(w.name))
    ensures Finish(sv, ctx, true, w.name, w.sub) == Dies(NotInLists) <==>
              sv.opt.configured != [] && forall i | 0 <= i < |ctx.lists| :: !Hits(First(ctx.lists[i]), w)
  {
    hide UpdateLists;
    hide Hits;
    hide First;
    FoundIff(ctx.lists, w);
  }

  lemma OnlyList(sv: Server)
    requires |sv.opt.configured| == 1 && MethodsValid(sv.opt, true, sv.opt.configured[0])
    ensures Lists(sv) == sv.opt.configured
  {
    hide MethodsValid;
    assert sv.opt.configured[1..] == [];
    assert Setup(sv.opt, sv.opt.configured[1..]) == [];
    assert sv.opt.configured == [sv.opt.configured[0]] + [];
  }

  lemma {:induction false} WholeUser(user: string)
    requires ':' !in user
    ensures BaseUser(user) == user
  {
    if user != "" {
      assert user[0] in user;
      assert ':' !in user[1..];
      WholeUser(user[1..]);
    }
  }

  lemma EnabledHead(opt: Options, list: string, name: string)
    requires MethodsValid(opt, true, list) && ':' !in name && name + ":" <= First(list)
    ensures opt.enabled(name)
  {
    MethodOfPrefix(name, First(list));
  }
}
