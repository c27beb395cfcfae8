/** When the fatal error of auth2_update_methods_lists in ssh/auth2.c can be reached, for one
    configured list. */
module Auth2Fatal {
  import opened Wire
  import opened Match
  import opened Auth2Lists
  import opened Auth2

  /** The element names a submethod of anything but keyboard-interactive. */
  predicate Bad(x: string) { ':' in x && MethodOf(x) != KBDINT }

  /** Some success takes a list past the element. */
  ghost predicate Passable(opt: Options, x: string)
  {
    if x == KBDINT then opt.devices != []
    else if MethodOf(x) == KBDINT then exists d :: d in opt.devices && x == KBDINT + ":" + d
    else ':' !in x && CanSucceed(opt, x)
  }

  /** `none` succeeds only where empty passwords are permitted. */
  predicate CanSucceed(opt: Options, name: string) { name == NONE ==> opt.emptyPassword }

  /** How many of the elements name the method `none`, which can be called only once. */
  function Nones(elements: seq<string>): nat
  {
    if elements == [] then 0
    else Nones(elements[..|elements| - 1]) + if MethodOf(elements[|elements| - 1]) == NONE then 1 else 0
  }

  /** An element with such a submethod comes after elements that can be passed, and up to it
      `none` is named at most once. */
  ghost predicate Reachable(opt: Options, elements: seq<string>)
  {
    exists k: nat | k < |elements| ::
      && Bad(elements[k]) && CanSucceed(opt, MethodOf(elements[k])) && Nones(elements[..k + 1]) <= 1
      && forall j | 0 <= j < k :: Passable(opt, elements[j])
  }

  lemma NonesNext(elements: seq<string>, k: nat)
    requires k < |elements|
    ensures Nones(elements[..k + 1]) == Nones(elements[..k]) + if MethodOf(elements[k]) == NONE then 1 else 0
  {
    hide MethodOf;
    assert elements[..k + 1][..k] == elements[..k];
  }

  lemma {:induction false} NonesGrow(elements: seq<string>, j: nat, k: nat)
    requires j <= k <= |elements|
    ensures Nones(elements[..j]) <= Nones(elements[..k])
  {
    hide MethodOf;
    if j < k {
      NonesGrow(elements, j, k - 1);
      NonesNext(elements, k - 1);
    }
  }

  lemma {:induction false} MethodOfColon(x: string)
    ensures if ':' in x then MethodOf(x) + ":" <= x else MethodOf(x) == x
  {
    if x != "" && x[0] != ':' {
      MethodOfColon(x[1..]);
      assert x == [x[0]] + x[1..];
    }
  }

  // ----- A fatal error comes from such an element

  /** What a success is: a method that is not keyboard-interactive, or that with a device. */
  ghost predicate RealWin(opt: Options, w: Win)
  {
    if w.name == KBDINT then w.sub.Some? && w.sub.value in opt.devices
    else Plain(w.name) && w.sub.None? && CanSucceed(opt, w.name)
  }

  function NoneWins(wins: seq<Win>): nat
  {
    if wins == [] then 0 else NoneWins(wins[..|wins| - 1]) + if wins[|wins| - 1].name == NONE then 1 else 0
  }

  /** An element with the method `none` is hit by `none` only. */
  lemma {:induction false} HitOfNone(opt: Options, x: string, w: Win)
    requires RealWin(opt, w) && Hits(x, w) && MethodOf(x) == NONE
    ensures w.name == NONE
  {
    MethodOfColon(x);
    if w.name == KBDINT {
      PlainKbdint();
      if x != KBDINT {
        assert KBDINT + ":" <= x;
        MethodOfPrefix(KBDINT, x);
      }
    }
  }

  lemma KbdintIsNotNone()
    ensures KBDINT != NONE
  {
    assert |KBDINT| != |NONE|;
  }

  lemma {:induction false} CoveredNones(opt: Options, wins: seq<Win>, elements: seq<string>)
    requires RealWins(opt, wins) && Covers(wins, elements)
    ensures Nones(elements) <= NoneWins(wins)
    decreases |wins|
  {
    hide Hits;
    hide MethodOf;
    hide RealWin;
    if elements != [] {
      var n, m := |wins| - 1, |elements| - 1;
      if Hits(elements[m], wins[n]) && Covers(wins[..n], elements[..m]) {
        CoveredNones(opt, wins[..n], elements[..m]);
        if MethodOf(elements[m]) == NONE { HitOfNone(opt, elements[m], wins[n]); }
      } else {
        CoveredNones(opt, wins[..n], elements);
      }
    }
  }

  ghost predicate RealWins(opt: Options, wins: seq<Win>) { forall i | 0 <= i < |wins| :: RealWin(opt, wins[i]) }

  lemma HitIsPassable(opt: Options, x: string, w: Win)
    requires RealWin(opt, w) && Hits(x, w)
    ensures Passable(opt, x)
  {
    MethodOfColon(x);
    if w.name == KBDINT && x != KBDINT {
      assert x == KBDINT + ":" + w.sub.value;
      PlainKbdint();
      assert KBDINT + ":" <= x;
      MethodOfPrefix(KBDINT, x);
    }
  }

  lemma {:induction false} CoveredIsPassable(opt: Options, wins: seq<Win>, elements: seq<string>)
    requires RealWins(opt, wins) && Covers(wins, elements)
    ensures forall j | 0 <= j < |elements| :: Passable(opt, elements[j])
    decreases |wins|
  {
    hide Hits;
    hide Passable;
    if elements != [] {
      var n, m := |wins| - 1, |elements| - 1;
      if Hits(elements[m], wins[n]) && Covers(wins[..n], elements[..m]) {
        CoveredIsPassable(opt, wins[..n], elements[..m]);
        HitIsPassable(opt, elements[m], wins[n]);
        forall j | 0 <= j < |elements| ensures Passable(opt, elements[j]) {
          if j < m { assert elements[..m][j] == elements[j]; }
        }
      } else {
        CoveredIsPassable(opt, wins[..n], elements);
      }
    }
  }

  lemma FinishWins(sv: Server, ctx: Ctx, authenticated: bool, name: string, sub: Option<string>)
    ensures var o := Finish(sv, ctx, authenticated, name, sub);
            o.Next? ==> o.ctx.noneEnabled == ctx.noneEnabled
                        && (o.won.Some? ==> authenticated && o.won.value == Win(name, sub))
  {
    hide UpdateLists;
  }

  /** Successes are real, and `none` is used up by its only one. */
  ghost predicate WinsOnce(opt: Options, ctx: Ctx, o: Outcome)
  {
    o.Next? ==>
      && (o.ctx.noneEnabled ==> ctx.noneEnabled)
      && (o.won.Some? ==>
            RealWin(opt, o.won.value) && (o.won.value.name == NONE ==> ctx.noneEnabled && !o.ctx.noneEnabled))
  }

  lemma StepWins(sv: Server, run: Run, e: Event)
    requires GoodNames(sv.opt) && run.Run? && Inv(sv, run)
    ensures WinsOnce(sv.opt, run.ctx, Step(sv, run.ctx, e))
  {
    hide Finish;
    hide Allowed;
    hide ListsInv;
    hide ChallengeStart;
    hide Begin;
    hide BaseUser;
    if !run.ctx.success && e.Request? {
      var begun := Begin(sv, run.ctx, BaseUser(e.user), e.service);
      if run.ctx.attempt > 0 {
        AttemptWins(sv, Reset(run.ctx.(attempt := run.ctx.attempt + 1)), e);
      } else if begun.Some? {
        AttemptWins(sv, Reset(begun.value), e);
      }
    } else if !run.ctx.success {
      ResponseWins(sv, run.ctx, e);
    }
  }

  lemma AttemptWins(sv: Server, ctx: Ctx, e: Event)
    requires GoodNames(sv.opt) && e.Request?
    ensures WinsOnce(sv.opt, ctx, Attempt(sv, ctx, e))
  {
    hide Finish;
    hide Allowed;
    hide NextDevice;
    KbdintIsNotNone();
    var devs := if e.devs == "" then JoinNames(sv.opt.devices) else e.devs;
    FinishWins(sv, ctx, false, e.name, None);
    FinishWins(sv, ChallengeStart(sv, ctx, Some(devs), e.starts), false, e.name, None);
    FinishWins(sv, Called(ctx, e), Authenticates(sv, e), e.name, None);
  }

  lemma ResponseWins(sv: Server, ctx: Ctx, e: Event)
    requires e.InfoResponse? && DeviceInv(sv, ctx)
    ensures WinsOnce(sv.opt, ctx, InputResponse(sv, ctx, e))
  {
    hide Finish;
    hide Allowed;
    hide NextDevice;
    KbdintIsNotNone();
    if ctx.kbdint.Some? && ctx.kbdint.value.device.Some? {
      var k := ctx.kbdint.value;
      var asked := ctx.(postponed := e.result == 1 && e.again);
      var authenticated := e.result == 0 && ctx.valid;
      var after :=
        if asked.postponed then asked
        else if authenticated then asked.(kbdint := None)
        else ChallengeStart(sv, asked, k.devices, e.starts);
      FinishWins(sv, after, authenticated, KBDINT, k.device);
    }
  }

  /** All successes of a run are real, and `none` was one of them at most once. */
  ghost predicate RunWon(opt: Options, run: Run)
    requires run.Run?
  {
    RealWins(opt, run.wins) && NoneWins(run.wins) <= if run.ctx.noneEnabled then 0 else 1
  }

  lemma {:induction false} RunWins(sv: Server, events: seq<Event>)
    requires GoodNames(sv.opt)
    ensures RunOf(sv, events).Run? ==> RunWon(sv.opt, RunOf(sv, events))
  {
    hide Step;
    hide RealWin;
    hide GoodNames;
    if events != [] {
      var init := events[..|events| - 1];
      RunWins(sv, init);
      RunKeepsInv(sv, init);
      var before := RunOf(sv, init);
      if before.Run? {
        StepWins(sv, before, events[|events| - 1]);
        ExtendWon(sv, before, events[|events| - 1]);
      }
    }
  }

  lemma ExtendWon(sv: Server, run: Run, e: Event)
    requires run.Run? && RunWon(sv.opt, run) && WinsOnce(sv.opt, run.ctx, Step(sv, run.ctx, e))
    ensures Extend(sv, run, e).Run? ==> RunWon(sv.opt, Extend(sv, run, e))
  {
    hide Step;
    hide RealWin;
    var o := Step(sv, run.ctx, e);
    if o.Next? && o.won.Some? { assert (run.wins + [o.won.value])[..|run.wins|] == run.wins; }
  }

  /** The server has one list, and it is enabled. */
  ghost predicate OneList(sv: Server, list: string)
  {
    sv.opt.configured == [list] && MethodsValid(sv.opt, true, list)
  }

  /** The element has a submethod, and its method can be called and succeed. */
  ghost predicate Fires(opt: Options, x: string, noneEnabled: bool)
  {
    Bad(x) && CanSucceed(opt, MethodOf(x)) && (MethodOf(x) == NONE ==> noneEnabled)
  }

  /** A success that is allowed but not found: the list's first element has a submethod. */
  lemma AttemptDies(sv: Server, ctx: Ctx, e: Event, list: string)
    requires GoodNames(sv.opt) && e.Request? && ctx.lists == [list] && sv.opt.configured != []
    requires Attempt(sv, ctx, e) == Dies(NotInLists)
    ensures Fires(sv.opt, First(list), ctx.noneEnabled)
  {
    hide StartsWith;
    hide First;
    hide MethodOf;
    hide UpdateLists;
    var w := Win(e.name, None);
    assert Auth2.Usable(sv, ctx, e.name) && e.name != KBDINT && !UpdateLists([list], w).found;
    StartsWithFirst(list, w);
    FoundIff([list], w);
    assert Allowed(sv.opt, [list], w);
    assert StartsWith([list][0], w) != NoMatch;
    assert !Hits(First([list][0]), w);
    MethodOfPrefix(e.name, First(list));
  }

  lemma {:induction false} StepDies(sv: Server, run: Run, e: Event, list: string)
    requires GoodNames(sv.opt) && OneList(sv, list) && run.Run? && Inv(sv, run) && RunWon(sv.opt, run)
    requires Step(sv, run.ctx, e) == Dies(NotInLists)
    ensures Reachable(sv.opt, Elements(list))
  {
    hide Attempt;
    hide InputResponse;
    hide MethodsValid;
    hide Elements;
    hide Progress;
    hide Passable;
    hide Fires;
    hide Hits;
    OnlyList(sv);
    if e.InfoResponse? {
      ResponseNotFatal(sv, run, e);
      assert false;
    } else if run.ctx.attempt == 0 {
      var begun := Begin(sv, run.ctx, BaseUser(e.user), e.service);
      AttemptDies(sv, Reset(begun.value), e, list);
      FirstIsReached(sv.opt, list);
    } else {
      assert |run.ctx.lists| == 1 && Progress(run.ctx.lists[0], list, run.wins);
      var cur := run.ctx.lists[0];
      assert run.ctx.lists == [cur];
      AttemptDies(sv, Reset(run.ctx.(attempt := run.ctx.attempt + 1)), e, cur);
      LaterIsReached(sv.opt, cur, list, run);
    }
  }

  lemma {:induction false} FirstIsReached(opt: Options, list: string)
    requires Fires(opt, First(list), true)
    ensures Reachable(opt, Elements(list))
  {
    hide MethodOf;
    assert list != "";
    assert Bad(Elements(list)[0]);
    NonesNext(Elements(list), 0);
  }

  lemma {:induction false} LaterIsReached(opt: Options, cur: string, list: string, run: Run)
    requires run.Run? && Progress(cur, list, run.wins) && RunWon(opt, run)
             && Fires(opt, First(cur), run.ctx.noneEnabled)
    ensures Reachable(opt, Elements(list))
  {
    hide Covers;
    hide From;
    hide Passable;
    hide MethodOf;
    hide RealWins;
    var all, wins := Elements(list), run.wins;
    var k: nat :| k <= |all| && cur == From(list, k) && Covers(wins, all[..k]);
    CoveredNones(opt, wins, all[..k]);
    assert cur != "";
    ElementsFrom(list, k);
    assert First(cur) == all[k..][0] == all[k];
    NonesNext(all, k);
    CoveredIsPassable(opt, wins, all[..k]);
    forall j | 0 <= j < k ensures Passable(opt, all[j]) { assert all[..k][j] == all[j]; }
  }

  lemma {:induction false} FatalIsReached(sv: Server, events: seq<Event>, list: string)
    requires GoodNames(sv.opt) && OneList(sv, list) && RunOf(sv, events) == Ended(Some(NotInLists))
    ensures Reachable(sv.opt, Elements(list))
  {
    hide Step;
    hide Inv;
    hide OneList;
    hide Reachable;
    hide GoodNames;
    hide RunWon;
    var init := events[..|events| - 1];
    var before := RunOf(sv, init);
    if before.Run? {
      RunKeepsInv(sv, init);
      RunWins(sv, init);
      StepDies(sv, before, events[|events| - 1], list);
    } else {
      FatalIsReached(sv, init, list);
    }
  }

  // ----- Such an element leads to the fatal error

  /** An ordinary user of the connection service, with `j` elements of the list passed. */
  ghost predicate Passed(c: Ctx, user: string, list: string, j: nat)
  {
    && c.attempt > 0 && c.user == user && c.service == "ssh-connection" && c.valid && !c.root && !c.success
    && c.lists == [From(list, j)] && c.failures <= j
  }

  /** And `none` is still enabled if it was not among them. */
  ghost predicate Ready(c: Ctx, user: string, list: string, j: nat)
  {
    Passed(c, user, list, j) && j <= |Elements(list)| && (Nones(Elements(list)[..j]) == 0 ==> c.noneEnabled)
  }

  ghost predicate At(c: Ctx, user: string, list: string, j: nat) { Ready(c, user, list, j) || (c == START && j == 0) }

  /** The conditions that the configuration and the user have to meet. */
  ghost predicate Ordinary(sv: Server, user: string, list: string)
  {
    && GoodNames(sv.opt) && (forall i | 0 <= i < |sv.opt.devices| :: sv.opt.devices[i] != "") && OneList(sv, list)
    && ':' !in user && sv.lookup(user) == Some(false) && sv.maxTries > |Elements(list)|
  }

  function Ask(user: string, name: string, devs: string): Event
  {
    Request(user, "ssh-connection", name, Verdict(true, false, false), devs, true)
  }

  /** A request comes to the call of its method. */
  lemma Asked(sv: Server, user: string, list: string, c: Ctx, j: nat, e: Event) returns (c': Ctx)
    requires Ordinary(sv, user, list) && At(c, user, list, j) && e.Request? && e.user == user
             && e.service == "ssh-connection"
    ensures Step(sv, c, e) == Attempt(sv, c', e)
    ensures Ready(c', user, list, j) && c'.kbdint.None? && !c'.postponed && !c'.serverCaused
  {
    hide Attempt;
    hide MethodsValid;
    hide Elements;
    OnlyList(sv);
    WholeUser(user);
    if c.attempt > 0 {
      c' := Reset(c.(attempt := c.attempt + 1));
    } else {
      assert From(list, 0) == list;
      c' := Reset(Begin(sv, c, user, e.service).value);
    }
  }

  lemma {:induction false} ElementsAreValid(opt: Options, list: string, k: nat)
    requires ValidRest(opt, true, list) && k < |Elements(list)|
    ensures ValidElement(opt, true, Elements(list)[k])
    decreases |list|
  {
    hide ValidElement;
    hide Comma;
    if k > 0 { ElementsAreValid(opt, AfterComma(list), k - 1); }
  }

  /** Where the list stands, as long as elements are left. */
  lemma {:induction false} Standing(list: string, j: nat)
    requires j < |Elements(list)|
    ensures From(list, j) != "" && First(From(list, j)) == Elements(list)[j]
  {
    hide From;
    ElementsFrom(list, j);
    assert Elements(list)[j..][0] == Elements(list)[j];
  }

  /** The list moves one element on. */
  lemma {:induction false} UpdateOne(cur: string, w: Win)
    requires GoodWin(w) && Hits(First(cur), w) && AfterComma(cur) != ""
    ensures UpdateLists([cur], w) == Update([AfterComma(cur)], false, true)
  {
    hide StartsWith;
    hide Remainder;
    hide First;
    hide AfterComma;
    StartsWithFirst(cur, w);
    RemainderIsRest(cur, w);
    assert [cur][1..] == [];
    assert UpdateLists([cur][1..], w) == Update([], false, false);
  }

  /** A success that is not the last takes the list on, at the price of a failure. */
  lemma {:induction false} SuccessPasses(sv: Server, user: string, list: string, c: Ctx, j: nat, w: Win)
    requires Ordinary(sv, user, list) && Passed(c, user, list, j) && !c.postponed && j + 1 < |Elements(list)|
    requires GoodWin(w) && Hits(Elements(list)[j], w) && (Nones(Elements(list)[..j + 1]) == 0 ==> c.noneEnabled)
    ensures var o := Finish(sv, c, true, w.name, w.sub); o.Next? && Ready(o.ctx, user, list, j + 1)
  {
    hide UpdateLists;
    hide MethodsValid;
    hide Elements;
    hide First;
    hide Hits;
    hide From;
    Standing(list, j);
    Standing(list, j + 1);
    FromNext(list, j);
    UpdateOne(From(list, j), w);
  }

  /** The element at which the list stands can be asked for. */
  lemma {:induction false} AskedIsUsable(sv: Server, user: string, list: string, c: Ctx, j: nat)
    requires Ordinary(sv, user, list) && Ready(c, user, list, j) && j < |Elements(list)|
    requires Nones(Elements(list)[..j + 1]) <= 1
    ensures var name := MethodOf(Elements(list)[j]);
            Auth2.Usable(sv, c, name) && Plain(name) && name != ""
  {
    hide Elements;
    hide From;
    hide First;
    hide StartsWith;
    hide MethodOf;
    Standing(list, j);
    NonesNext(Elements(list), j);
    ElementsAreValid(sv.opt, list, j);
    var x := Elements(list)[j];
    var w := Win(MethodOf(x), None);
    MethodOfColon(x);
    StartsWithFirst(From(list, j), w);
    assert c.lists[0] == From(list, j);
  }

  /** A plain method is passed by its success. */
  lemma PassPlain(sv: Server, user: string, list: string, run: Run, j: nat) returns (e: Event)
    requires Ordinary(sv, user, list) && run.Run? && At(run.ctx, user, list, j) && j + 1 < |Elements(list)|
    requires ':' !in Elements(list)[j] && Elements(list)[j] != KBDINT && CanSucceed(sv.opt, Elements(list)[j])
    requires Nones(Elements(list)[..j + 1]) <= 1
    ensures Extend(sv, run, e).Run? && Ready(Extend(sv, run, e).ctx, user, list, j + 1)
  {
    hide Elements;
    hide From;
    hide Ordinary;
    hide Finish;
    hide MethodOf;
    hide Step;
    hide Auth2.Usable;
    var x := Elements(list)[j];
    MethodOfColon(x);
    e := Ask(user, x, "");
    var c := Asked(sv, user, list, run.ctx, j, e);
    AskedIsUsable(sv, user, list, c, j);
    NonesNext(Elements(list), j);
    SuccessPasses(sv, user, list, Called(c, e), j, Win(x, None));
  }

  lemma {:induction false} SomeDevice(opt: Options, lists: seq<string>, wanted: string, n: nat, i: nat)
    requires i < n <= |opt.devices| && wanted <= opt.devices[i]
             && Allowed(opt, lists, Win(KBDINT, Some(opt.devices[i])))
    ensures FindDevice(opt, lists, wanted, n).Some?
    decreases n
  {
    hide Allowed;
    if i < n - 1 { SomeDevice(opt, lists, wanted, n - 1, i); }
  }

  /** A device that the element allows is found when it is asked for, if not it another one. */
  lemma DeviceFound(sv: Server, cur: string, d: string)
    requires GoodNames(sv.opt) && sv.opt.configured != [] && d in sv.opt.devices && d != ""
    requires Hits(First(cur), Win(KBDINT, Some(d)))
    ensures var k := NextDevice(sv.opt, [cur], Some(d));
            k.device.Some? && k.device.value in sv.opt.devices && Hits(First(cur), Win(KBDINT, k.device))
  {
    hide StartsWith;
    hide First;
    hide Hits;
    hide GoodNames;
    var i :| 0 <= i < |sv.opt.devices| && sv.opt.devices[i] == d;
    WholeName(sv.opt, i);
    GoodDevice(sv, d);
    StartsWithFirst(cur, Win(KBDINT, Some(d)));
    assert StartsWith([cur][0], Win(KBDINT, Some(d))) != NoMatch;
    SomeDevice(sv.opt, [cur], d, |sv.opt.devices|, i);
    var found := FindDevice(sv.opt, [cur], d, |sv.opt.devices|);
    GoodDevice(sv, found.value);
    StartsWithFirst(cur, Win(KBDINT, found));
  }

  lemma WholeName(opt: Options, i: nat)
    requires GoodNames(opt) && i < |opt.devices|
    ensures Comma(opt.devices[i]) == |opt.devices[i]| && First(opt.devices[i]) == opt.devices[i]
  {
  }

  /** A device asks, ... */
  lemma DeviceAsks(sv: Server, user: string, list: string, run: Run, j: nat, d: string) returns (e: Event)
    requires Ordinary(sv, user, list) && run.Run? && At(run.ctx, user, list, j) && j < |Elements(list)|
    requires MethodOf(Elements(list)[j]) == KBDINT && d in sv.opt.devices
             && Hits(Elements(list)[j], Win(KBDINT, Some(d)))
    requires Nones(Elements(list)[..j + 1]) <= 1
    ensures var run' := Extend(sv, run, e);
            && run'.Run? && Ready(run'.ctx, user, list, j) && run'.ctx.kbdint.Some?
            && run'.ctx.kbdint.value.device.Some?
            && run'.ctx.kbdint.value.device.value in sv.opt.devices
            && Hits(Elements(list)[j], Win(KBDINT, run'.ctx.kbdint.value.device))
  {
    hide Elements;
    hide From;
    hide MethodOf;
    hide Step;
    hide First;
    hide Hits;
    hide NextDevice;
    hide MethodsValid;
    hide Auth2.Usable;
    Standing(list, j);
    e := Ask(user, KBDINT, d);
    var c := Asked(sv, user, list, run.ctx, j, e);
    AskedIsUsable(sv, user, list, c, j);
    DeviceFound(sv, From(list, j), d);
  }

  /** ... and a right answer passes the element. */
  lemma {:induction false} AnswerPasses(sv: Server, user: string, list: string, run: Run, j: nat)
    requires Ordinary(sv, user, list) && run.Run? && Ready(run.ctx, user, list, j) && j + 1 < |Elements(list)|
    requires run.ctx.kbdint.Some? && run.ctx.kbdint.value.device.Some?
             && run.ctx.kbdint.value.device.value in sv.opt.devices
    requires Hits(Elements(list)[j], Win(KBDINT, run.ctx.kbdint.value.device))
    ensures var run' := Extend(sv, run, InfoResponse(0, false, false));
            run'.Run? && Ready(run'.ctx, user, list, j + 1)
  {
    hide Elements;
    hide From;
    hide Hits;
    hide Finish;
    hide MethodsValid;
    hide GoodNames;
    var k := run.ctx.kbdint.value;
    GoodDevice(sv, k.device.value);
    NonesGrow(Elements(list), j, j + 1);
    var c := run.ctx.(postponed := false, kbdint := None);
    SuccessPasses(sv, user, list, c, j, Win(KBDINT, k.device));
  }

  lemma {:induction false} RunSnoc(sv: Server, events: seq<Event>, e: Event)
    ensures RunOf(sv, events).Run? ==> RunOf(sv, events + [e]) == Extend(sv, RunOf(sv, events), e)
  {
    hide Extend;
    assert (events + [e])[..|events|] == events;
  }

  /** Elements that can be passed are passed in some run. */
  lemma {:induction false} PassAll(sv: Server, user: string, list: string, j: nat) returns (events: seq<Event>)
    requires Ordinary(sv, user, list) && j < |Elements(list)|
    requires Nones(Elements(list)[..j]) <= 1 && forall i | 0 <= i < j :: Passable(sv.opt, Elements(list)[i])
    ensures RunOf(sv, events).Run? && At(RunOf(sv, events).ctx, user, list, j)
    decreases j
  {
    hide Ordinary;
    hide Extend;
    hide Elements;
    hide Ready;
    hide Hits;
    hide MethodOf;
    if j == 0 {
      events := [];
    } else {
      NonesGrow(Elements(list), j - 1, j);
      events := PassAll(sv, user, list, j - 1);
      var run, x := RunOf(sv, events), Elements(list)[j - 1];
      assert Passable(sv.opt, x);
      if x == KBDINT || MethodOf(x) == KBDINT {
        var d := Suitable(sv.opt, x);
        var e := DeviceAsks(sv, user, list, run, j - 1, d);
        RunSnoc(sv, events, e);
        events := events + [e];
        AnswerPasses(sv, user, list, RunOf(sv, events), j - 1);
        RunSnoc(sv, events, InfoResponse(0, false, false));
        events := events + [InfoResponse(0, false, false)];
      } else {
        var e := PassPlain(sv, user, list, run, j - 1);
        RunSnoc(sv, events, e);
        events := events + [e];
      }
    }
  }

  lemma Suitable(opt: Options, x: string) returns (d: string)
    requires Passable(opt, x) && (x == KBDINT || MethodOf(x) == KBDINT)
    ensures d in opt.devices && Hits(x, Win(KBDINT, Some(d))) && MethodOf(x) == KBDINT
  {
    if x == KBDINT {
      d := opt.devices[0];
      PlainKbdint();
      MethodOfColon(x);
    } else {
      d :| d in opt.devices && x == KBDINT + ":" + d;
    }
  }

  lemma DiesThere(sv: Server, user: string, list: string, run: Run, k: nat) returns (e: Event)
    requires Ordinary(sv, user, list) && run.Run? && At(run.ctx, user, list, k) && k < |Elements(list)|
             && Bad(Elements(list)[k])
    requires CanSucceed(sv.opt, MethodOf(Elements(list)[k])) && Nones(Elements(list)[..k + 1]) <= 1
    ensures Extend(sv, run, e) == Ended(Some(NotInLists))
  {
    hide Elements;
    hide From;
    hide MethodOf;
    hide Step;
    hide First;
    hide UpdateLists;
    hide MethodsValid;
    hide Auth2.Usable;
    Standing(list, k);
    var x := Elements(list)[k];
    var name := MethodOf(x);
    var w := Win(name, None);
    e := Ask(user, name, "");
    var c := Asked(sv, user, list, run.ctx, k, e);
    AskedIsUsable(sv, user, list, c, k);
    FoundIff([From(list, k)], w);
    assert name != x;
  }

  /** For one enabled list, an ordinary user and enough tries: some run ends in the fatal error
      exactly when an element with a submethod of another method than keyboard-interactive comes
      after elements that can be passed. */
  lemma {:induction false} FatalRunExists(sv: Server, user: string, list: string)
    requires Ordinary(sv, user, list)
    ensures (exists events :: RunOf(sv, events) == Ended(Some(NotInLists))) <==> Reachable(sv.opt, Elements(list))
  {
    hide Extend;
    hide Elements;
    hide At;
    hide Passable;
    hide Bad;
    if Reachable(sv.opt, Elements(list)) {
      var k: nat :| k < |Elements(list)| && Bad(Elements(list)[k]) && CanSucceed(sv.opt, MethodOf(Elements(list)[k]))
                    && Nones(Elements(list)[..k + 1]) <= 1
                    && forall j | 0 <= j < k :: Passable(sv.opt, Elements(list)[j]);
      NonesGrow(Elements(list), k, k + 1);
      var events := PassAll(sv, user, list, k);
      var e := DiesThere(sv, user, list, RunOf(sv, events), k);
      RunSnoc(sv, events, e);
      assert RunOf(sv, events + [e]) == Ended(Some(NotInLists));
    }
    if events :| RunOf(sv, events) == Ended(Some(NotInLists)) { FatalIsReached(sv, events, list); }
  }
}
