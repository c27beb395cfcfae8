/** The AuthenticationMethods lists of ssh/auth2.c: comma-separated strings of methods, each with
    an optional submethod after a colon. */
module Auth2Lists {
  import opened Wire
  import opened Match

  const KBDINT := "keyboard-interactive"
  const NONE := "none"

  /** A successful authentication. */
  datatype Win = Win(name: string, sub: Option<string>)

  /** The configuration that matters here: the configured lists, the table of methods with the
      enabled ones, the keyboard-interactive devices, and whether empty passwords are tried. */
  datatype Options = Options(configured: seq<string>, methods: seq<string>, enabled: string -> bool,
                             devices: seq<string>, emptyPassword: bool)

  predicate Plain(name: string) { ',' !in name && ':' !in name }

  /** The names in the tables of the implementation contain neither commas nor colons. */
  ghost predicate GoodNames(opt: Options)
  {
    && (forall i | 0 <= i < |opt.methods| :: opt.methods[i] != "" && Plain(opt.methods[i]))
    && (forall i | 0 <= i < |opt.devices| :: ',' !in opt.devices[i])
  }

  // ----- The elements of a list

  function First(list: string): string { list[..Comma(list)] }

  function Elements(list: string): seq<string>
    decreases |list|
  {
    if list == "" then [] else [First(list)] + Elements(AfterComma(list))
  }

  lemma {:induction false} ElementsFrom(list: string, k: nat)
    requires k <= |Elements(list)|
    ensures Elements(From(list, k)) == Elements(list)[k..]
    decreases k
  {
    hide Comma;
    hide AfterComma;
    if k > 0 {
      ElementsFrom(AfterComma(list), k - 1);
      assert Elements(list)[k..] == Elements(AfterComma(list))[k - 1..];
    }
  }

  // ----- list_starts_with

  datatype Kind = NoMatch | MatchMethod | MatchBoth | MatchPartial

  function StartsWith(list: string, w: Win): Kind
  {
    if !(w.name <= list) then NoMatch
    else
      var p := list[|w.name|..];
      if p != "" && p[0] == ':' then
        if w.sub.None? then MatchPartial
        else if !(w.sub.value <= p[1..]) then NoMatch
        else EndsElement(p[1 + |w.sub.value|..], MatchBoth)
      else EndsElement(p, MatchMethod)
  }

  function EndsElement(p: string, k: Kind): Kind { if p == "" || p[0] == ',' then k else NoMatch }

  function Colon(w: Win): string
    requires w.sub.Some?
  {
    w.name + ":" + w.sub.value
  }

  ghost predicate GoodWin(w: Win) { Plain(w.name) && w.name != "" && (w.sub.Some? ==> ',' !in w.sub.value) }

  lemma CommaSplits(name: string, rest: string)
    requires ',' !in name && (rest == "" || rest[0] == ',')
    ensures First(name + rest) == name
  {
    CommaAt(name, rest);
  }

  lemma {:induction false} PrefixInFirst(name: string, list: string)
    requires ',' !in name && name <= list
    ensures name <= First(list)
  {
    if name != "" {
      PrefixInFirst(name[1..], list[1..]);
      assert name[0] in name;
    }
  }

  lemma {:induction false} FirstIsPrefix(list: string)
    ensures First(list) <= list && list == First(list) + list[Comma(list)..]
    ensures list[Comma(list)..] == "" || list[Comma(list)..][0] == ','
  {
  }

  /** The comparison of characters is a comparison with the first element. */
  lemma StartsWithMethod(list: string, w: Win)
    requires GoodWin(w)
    ensures StartsWith(list, w) == MatchMethod <==> First(list) == w.name
  {
    hide Comma;
    hide EndsElement;
    FirstIsPrefix(list);
    if w.name <= list {
      var p := list[|w.name|..];
      assert list == w.name + p;
      EndsElementKinds(p, MatchMethod);
      var after := if w.sub.Some? && p != "" && w.sub.value <= p[1..] then p[1 + |w.sub.value|..] else "";
      EndsElementKinds(after, MatchBoth);
      if p == "" || p[0] == ',' { CommaSplits(w.name, p); }
      if First(list) == w.name { assert p == list[Comma(list)..]; }
    }
  }

  lemma EndsElementKinds(p: string, k: Kind)
    ensures EndsElement(p, k) == if p == "" || p[0] == ',' then k else NoMatch
  {
  }

  lemma ColonPrefix(list: string, w: Win)
    requires w.sub.Some?
    ensures Colon(w) <= list <==>
              w.name <= list && |list| > |w.name| && list[|w.name|] == ':' && w.sub.value <= list[|w.name| + 1..]
  {
    if Colon(w) <= list {
      var p := list[|Colon(w)|..];
      assert list == Colon(w) + p;
      assert list[|w.name| + 1..] == w.sub.value + p;
    }
    if w.name <= list && |list| > |w.name| && list[|w.name|] == ':' && w.sub.value <= list[|w.name| + 1..] {
      var p := list[|w.name| + 1..][|w.sub.value|..];
      assert list == Colon(w) + p;
    }
  }

  lemma StartsWithBoth(list: string, w: Win)
    requires GoodWin(w)
    ensures StartsWith(list, w) == MatchBoth <==> w.sub.Some? && First(list) == Colon(w)
  {
    hide Comma;
    FirstIsPrefix(list);
    if w.sub.Some? {
      ColonPrefix(list, w);
      if Colon(w) <= list {
        var p := list[|Colon(w)|..];
        assert list == Colon(w) + p;
        assert list[|w.name|..][1 + |w.sub.value|..] == p;
        if p == "" || p[0] == ',' { CommaSplits(Colon(w), p); }
        if First(list) == Colon(w) { assert p == list[Comma(list)..]; }
      }
    }
  }

  lemma StartsWithPartial(list: string, w: Win)
    requires GoodWin(w)
    ensures StartsWith(list, w) == MatchPartial <==> w.sub.None? && w.name + ":" <= First(list)
  {
    hide Comma;
    FirstIsPrefix(list);
    if w.name + ":" <= First(list) {
      assert w.name <= list && list[|w.name|] == ':';
    }
    if w.name <= list && |list| > |w.name| && list[|w.name|] == ':' {
      assert w.name + ":" <= list;
      PrefixInFirst(w.name + ":", list);
    }
  }

  /** The first element is this method, with this submethod if it names one. */
  predicate Hits(element: string, w: Win) { element == w.name || (w.sub.Some? && element == Colon(w)) }

  /** list_starts_with, told by the first element alone. */
  lemma StartsWithFirst(list: string, w: Win)
    requires GoodWin(w)
    ensures StartsWith(list, w) == MatchMethod || StartsWith(list, w) == MatchBoth <==> Hits(First(list), w)
    ensures StartsWith(list, w) != NoMatch <==> Hits(First(list), w) || (w.sub.None? && w.name + ":" <= First(list))
  {
    hide StartsWith;
    hide First;
    StartsWithMethod(list, w);
    StartsWithBoth(list, w);
    StartsWithPartial(list, w);
  }

  /** auth2_method_allowed. */
  predicate Allowed(opt: Options, lists: seq<string>, w: Win)
  {
    opt.configured == [] || exists i | 0 <= i < |lists| :: StartsWith(lists[i], w) != NoMatch
  }

  method MethodAllowed(opt: Options, lists: seq<string>, w: Win) returns (r: bool)
    ensures r == Allowed(opt, lists, w)
  {
    hide StartsWith;
    if opt.configured == [] { return true; }
    for i := 0 to |lists|
      invariant forall j | 0 <= j < i :: StartsWith(lists[j], w) == NoMatch
    {
      if StartsWith(lists[i], w) != NoMatch { return true; }
    }
    return false;
  }

  // ----- remove_method and auth2_update_methods_lists

  predicate Removes(list: string, w: Win) { StartsWith(list, w) == MatchMethod || StartsWith(list, w) == MatchBoth }

  /** remove_method: what is left of the list. */
  function Remainder(list: string, w: Win): string
    requires Removes(list, w)
  {
    var p := list[if StartsWith(list, w) == MatchBoth then |w.name| + 1 + |w.sub.value| else |w.name|..];
    if p != "" && p[0] == ',' then p[1..] else p
  }

  /** It is the list without its first element. */
  lemma RemainderIsRest(list: string, w: Win)
    requires GoodWin(w) && Removes(list, w)
    ensures Remainder(list, w) == AfterComma(list) && Hits(First(list), w)
  {
    hide StartsWith;
    StartsWithMethod(list, w);
    StartsWithBoth(list, w);
    FirstIsPrefix(list);
    var n := if StartsWith(list, w) == MatchBoth then |w.name| + 1 + |w.sub.value| else |w.name|;
    assert |First(list)| == n;
  }

  datatype Update = Update(lists: seq<string>, complete: bool, found: bool)

  /** auth2_update_methods_lists: it stops at the first list that is complete. */
  function UpdateLists(lists: seq<string>, w: Win): (r: Update)
    ensures |r.lists| == |lists| && (r.complete ==> r.found)
  {
    if lists == [] then Update([], false, false)
    else if Removes(lists[0], w) then
      var left := Remainder(lists[0], w);
      if left == "" then Update([""] + lists[1..], true, true)
      else
        var rest := UpdateLists(lists[1..], w);
        Update([left] + rest.lists, rest.complete, true)
    else
      var rest := UpdateLists(lists[1..], w);
      Update([lists[0]] + rest.lists, rest.complete, rest.found)
  }

  method UpdateListsLoop(lists0: seq<string>, w: Win) returns (r: Update)
    ensures r == UpdateLists(lists0, w)
  {
    hide StartsWith;
    hide Remainder;
    hide Removes;
    var lists, found := lists0, false;
    for i := 0 to |lists0|
      invariant |lists| == |lists0| && lists[i..] == lists0[i..]
      invariant UpdateLists(lists0, w) == After(lists[..i], found, UpdateLists(lists0[i..], w))
    {
      UpdateStep(lists0, lists, i, found, w);
      if Removes(lists[i], w) {
        found := true;
        lists := lists[i := Remainder(lists[i], w)];
        if lists[i] == "" { return Update(lists, true, true); }
      }
    }
    assert lists[..|lists0|] == lists && lists0[|lists0|..] == [];
    return Update(lists, false, found);
  }

  /** The result of the loop, given what it makes of the lists it has not come to. */
  function After(done: seq<string>, found: bool, rest: Update): Update
  {
    Update(done + rest.lists, rest.complete, found || rest.found)
  }

  lemma {:induction false} UpdateStep(lists0: seq<string>, lists: seq<string>, i: nat, found: bool, w: Win)
    requires i < |lists0| && |lists| == |lists0| && lists[i..] == lists0[i..]
    ensures var u := After(lists[..i], found, UpdateLists(lists0[i..], w));
            if !Removes(lists[i], w) then u == After(lists[..i + 1], found, UpdateLists(lists0[i + 1..], w))
            else
              var next := lists[i := Remainder(lists[i], w)];
              if next[i] == "" then u == Update(next, true, true)
              else u == After(next[..i + 1], true, UpdateLists(lists0[i + 1..], w))
  {
    hide StartsWith;
    hide Remainder;
    hide Removes;
    var rest := lists0[i..];
    assert rest[0] == lists[i] && rest[1..] == lists0[i + 1..];
    var u := UpdateLists(lists0[i + 1..], w);
    if !Removes(lists[i], w) {
      assert lists[..i] + ([lists[i]] + u.lists) == lists[..i + 1] + u.lists;
    } else {
      var next := lists[i := Remainder(lists[i], w)];
      assert lists[..i] + ([next[i]] + u.lists) == next[..i + 1] + u.lists;
      assert lists[..i] + ([next[i]] + rest[1..]) == next;
    }
  }

  /** The fatal error of auth2_update_methods_lists: no list starts with the method. */
  lemma {:induction false} FoundIff(lists: seq<string>, w: Win)
    requires GoodWin(w)
    ensures UpdateLists(lists, w).found <==> exists i | 0 <= i < |lists| :: Hits(First(lists[i]), w)
  {
    hide StartsWith;
    hide Remainder;
    hide First;
    hide Hits;
    if lists != [] {
      FoundIff(lists[1..], w);
      StartsWithFirst(lists[0], w);
      assert forall i | 1 <= i < |lists| :: lists[i] == lists[1..][i - 1];
    }
  }

  // ----- auth2_methods_valid and auth2_setup_methods_lists

  /** The part of an element before its colon. */
  function MethodOf(element: string): (m: string)
    ensures m <= element && ':' !in m
  {
    if element == "" || element[0] == ':' then "" else [element[0]] + MethodOf(element[1..])
  }

  predicate ValidElement(opt: Options, needEnable: bool, element: string)
  {
    MethodOf(element) in opt.methods && (needEnable ==> opt.enabled(MethodOf(element)))
  }

  /** Every element that strsep yields, an empty one at the end too, is valid. */
  predicate ValidRest(opt: Options, needEnable: bool, list: string)
    decreases |list|
  {
    ValidElement(opt, needEnable, First(list))
    && (Comma(list) < |list| ==> ValidRest(opt, needEnable, AfterComma(list)))
  }

  predicate MethodsValid(opt: Options, needEnable: bool, list: string)
  {
    list != "" && ValidRest(opt, needEnable, list)
  }

  method MethodsValidLoop(opt: Options, needEnable: bool, list: string) returns (r: bool)
    ensures r == MethodsValid(opt, needEnable, list)
  {
    hide ValidElement;
    if list == "" { return false; }
    var rest := list;
    while true
      invariant ValidRest(opt, needEnable, list) == ValidRest(opt, needEnable, rest)
      decreases |rest|
    {
      if !ValidElement(opt, needEnable, rest[..Comma(rest)]) { return false; }
      if Comma(rest) == |rest| { return true; }
      rest := AfterComma(rest);
    }
  }

  function Setup(opt: Options, configured: seq<string>): seq<string>
  {
    if configured == [] then []
    else (if MethodsValid(opt, true, configured[0]) then [configured[0]] else []) + Setup(opt, configured[1..])
  }

  /** auth2_setup_methods_lists: keep the lists without disabled methods. */
  method SetupLists(opt: Options) returns (lists: seq<string>, ok: bool)
    ensures lists == Setup(opt, opt.configured)
    ensures ok == (opt.configured == [] || lists != [])
  {
    hide MethodsValid;
    lists := [];
    for i := 0 to |opt.configured|
      invariant lists + Setup(opt, opt.configured[i..]) == Setup(opt, opt.configured)
    {
      var valid := MethodsValidLoop(opt, true, opt.configured[i]);
      SetupStep(opt, i, lists);
      if valid { lists := lists + [opt.configured[i]]; }
    }
    assert opt.configured[|opt.configured|..] == [];
    ok := opt.configured == [] || lists != [];
  }

  lemma {:induction false} SetupStep(opt: Options, i: nat, lists: seq<string>)
    requires i < |opt.configured|
    ensures lists + Setup(opt, opt.configured[i..]) ==
            (if MethodsValid(opt, true, opt.configured[i]) then lists + [opt.configured[i]] else lists)
            + Setup(opt, opt.configured[i + 1..])
  {
    hide MethodsValid;
    assert opt.configured[i..][0] == opt.configured[i] && opt.configured[i..][1..] == opt.configured[i + 1..];
  }

  lemma {:induction false} SetupIsConfigured(opt: Options, configured: seq<string>, list: string)
    ensures list in Setup(opt, configured) <==> list in configured && MethodsValid(opt, true, list)
  {
    hide MethodsValid;
    if configured != [] { SetupIsConfigured(opt, configured[1..], list); }
  }
}
