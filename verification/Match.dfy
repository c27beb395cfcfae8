/** ssh/match.c: wildcard patterns, pattern lists and name lists.  A C string is a sequence of
    characters without its terminator. */
module Match {
  import opened Wire

  // ----- What a pattern means

  /** `*` stands for any characters, `?` for any one, every other character for itself. */
  predicate Glob(s: string, p: string)
    decreases |p|
  {
    if p == "" then s == ""
    else if p[0] == '*' then exists k | 0 <= k <= |s| :: Glob(s[k..], p[1..])
    else s != "" && (p[0] == '?' || p[0] == s[0]) && Glob(s[1..], p[1..])
  }

  predicate AllStars(p: string) { forall i | 0 <= i < |p| :: p[i] == '*' }

  predicate EndsInTwoStars(p: string) { |p| >= 2 && p[|p| - 2] == '*' && p[|p| - 1] == '*' }

  /** The pattern that match_pattern really matches: two or more asterisks at the end want at
      least one character. */
  function Tighten(p: string): string
  {
    if |p| >= 2 && AllStars(p) then "?*"
    else if p == "" then ""
    else [p[0]] + Tighten(p[1..])
  }

  // ----- match_pattern

  lemma {:induction false} EmptyMatchesStars(p: string)
    ensures Glob("", p) <==> AllStars(p)
  {
    if p != "" {
      EmptyMatchesStars(p[1..]);
      assert p[0] == '*' ==> (AllStars(p) <==> AllStars(p[1..]));
      assert ""[0..] == "";
    }
  }

  lemma {:induction false} TightenKeepsStars(p: string)
    requires !AllStars(p)
    ensures !AllStars(Tighten(p))
  {
    var q := Tighten(p[1..]);
    assert Tighten(p) == [p[0]] + q;
    if p[0] == '*' {
      assert !AllStars(p[1..]);
      TightenKeepsStars(p[1..]);
      var i :| 0 <= i < |q| && q[i] != '*';
      assert Tighten(p)[i + 1] != '*';
    } else {
      assert Tighten(p)[0] != '*';
    }
  }

  /** An asterisk followed by a wildcard: only suffixes that are not empty need be tried. */
  lemma {:induction false} StarThenWildcard(s: string, p: string)
    requires |p| >= 2 && p[0] == '*' && (p[1] == '?' || p[1] == '*')
    ensures Glob(s, Tighten(p)) <==> exists k | 0 <= k < |s| :: Glob(s[k..], Tighten(p[1..]))
  {
    if AllStars(p) {
      StarsWantOne(s);
      if |s| > 0 {
        assert s[0..] == s;
        assert AllStars(p[1..]);
        if |p| == 2 { assert p[1..] == "*"; TightenStar(); StarMatches(s); } else { StarsWantOne(s[0..]); }
      }
    } else {
      assert !AllStars(p[1..]);
      TightenKeepsStars(p[1..]);
      EmptyMatchesStars(Tighten(p[1..]));
      GlobStar(s, Tighten(p[1..]));
      assert s[|s|..] == "";
    }
  }

  lemma TightenStar()
    ensures Tighten("*") == "*"
  {
    assert "*"[1..] == "";
  }

  lemma {:induction false} GlobStar(s: string, p: string)
    ensures Glob(s, "*" + p) <==> exists k | 0 <= k <= |s| :: Glob(s[k..], p)
  {
    assert ("*" + p)[1..] == p;
  }

  lemma {:induction false} StarMatches(s: string)
    ensures Glob(s, "*")
  {
    assert "*"[1..] == "";
    assert s[|s|..] == "";
    assert Glob(s[|s|..], "*"[1..]);
  }

  lemma {:induction false} StarsWantOne(s: string)
    ensures Glob(s, "?*") <==> s != ""
  {
    assert "?*"[1..] == "*";
    if s != "" { StarMatches(s[1..]); }
  }

  /** An asterisk followed by another character: try wherever that character occurs. */
  lemma {:induction false} StarThenChar(s: string, p: string)
    requires |p| >= 2 && p[0] == '*' && p[1] != '?' && p[1] != '*'
    ensures Glob(s, Tighten(p)) <==> exists k | 0 <= k < |s| :: s[k] == p[1] && Glob(s[k + 1..], Tighten(p[2..]))
  {
    var q := Tighten(p[1..]);
    assert p[1..][1..] == p[2..];
    assert q == [p[1]] + Tighten(p[2..]);
    assert q[1..] == Tighten(p[2..]);
    assert Tighten(p) == "*" + q;
    GlobStar(s, q);
    forall k | 0 <= k <= |s| ensures Glob(s[k..], q) <==> k < |s| && s[k] == p[1] && Glob(s[k + 1..], Tighten(p[2..])) {
      if k < |s| { assert s[k..][1..] == s[k + 1..]; }
    }
  }

  /** A first character other than an asterisk. */
  lemma {:induction false} OneChar(s: string, p: string)
    requires p != "" && p[0] != '*'
    ensures Glob(s, Tighten(p)) <==> s != "" && (p[0] == '?' || p[0] == s[0]) && Glob(s[1..], Tighten(p[1..]))
  {
    assert Tighten(p) == [p[0]] + Tighten(p[1..]);
    assert Tighten(p)[1..] == Tighten(p[1..]);
  }

  /** match_pattern: it always ends, and matches the tightened pattern. */
  method MatchPattern(subject: string, pattern: string) returns (matches: bool)
    ensures matches == Glob(subject, Tighten(pattern))
    decreases |pattern|
  {
    hide Glob;
    hide Tighten;
    var s, p := subject, pattern;
    while true
      invariant |p| <= |pattern|
      invariant Glob(subject, Tighten(pattern)) == Glob(s, Tighten(p))
      decreases |p|
    {
      if p == "" { EndOfPattern(s); return s == ""; }
      if p[0] == '*' {
        matches := MatchStar(s, p);
        return;
      }
      OneChar(s, p);
      if s == "" { return false; }
      if p[0] != '?' && p[0] != s[0] { return false; }
      s, p := s[1..], p[1..];
    }
  }

  lemma {:induction false} EndOfPattern(s: string)
    ensures Glob(s, Tighten("")) <==> s == ""
  {
  }

  /** The branch for an asterisk. */
  method MatchStar(s: string, p: string) returns (matches: bool)
    requires p != "" && p[0] == '*'
    ensures matches == Glob(s, Tighten(p))
    decreases |p|, 0
  {
    hide Glob;
    hide Tighten;
    if |p| == 1 {
      assert p == "*";
      TightenStar();
      StarMatches(s);
      return true;
    }
    if p[1] != '?' && p[1] != '*' {
      StarThenChar(s, p);
      for k := 0 to |s|
        invariant forall j | 0 <= j < k :: !(s[j] == p[1] && Glob(s[j + 1..], Tighten(p[2..])))
      {
        if s[k] == p[1] {
          var rest := MatchPattern(s[k + 1..], p[2..]);
          if rest { return true; }
        }
      }
      return false;
    }
    StarThenWildcard(s, p);
    for k := 0 to |s|
      invariant forall j | 0 <= j < k :: !Glob(s[j..], Tighten(p[1..]))
    {
      var rest := MatchPattern(s[k..], p[1..]);
      if rest { return true; }
    }
    return false;
  }

  // ----- Soundness, and where it is complete

  lemma {:induction false} StarsMatchAll(s: string, p: string)
    requires p != "" && AllStars(p)
    ensures Glob(s, p)
  {
    if |p| == 1 {
      assert p == "*";
      StarMatches(s);
    } else {
      assert AllStars(p[1..]);
      StarsMatchAll(s[0..], p[1..]);
    }
  }

  /** Whatever match_pattern accepts, the pattern matches. */
  lemma {:induction false} MatchIsSound(s: string, p: string)
    requires Glob(s, Tighten(p))
    ensures Glob(s, p)
    decreases |p|
  {
    if |p| >= 2 && AllStars(p) {
      StarsMatchAll(s, p);
    } else if p != "" {
      assert Tighten(p)[1..] == Tighten(p[1..]);
      if p[0] == '*' {
        var k :| 0 <= k <= |s| && Glob(s[k..], Tighten(p)[1..]);
        MatchIsSound(s[k..], p[1..]);
      } else {
        MatchIsSound(s[1..], p[1..]);
      }
    }
  }

  lemma {:induction false} TightenIsIdentity(p: string)
    requires !EndsInTwoStars(p)
    ensures Tighten(p) == p
  {
    if p != "" {
      TightenIsIdentity(p[1..]);
    }
  }

  /** The shortest string that the pattern matches. */
  function Shortest(p: string): string
  {
    if p == "" then "" else (if p[0] == '*' then "" else [p[0]]) + Shortest(p[1..])
  }

  lemma {:induction false} ShortestMatches(p: string)
    ensures Glob(Shortest(p), p)
  {
    if p != "" {
      ShortestMatches(p[1..]);
      if p[0] == '*' {
        assert Shortest(p)[0..] == Shortest(p[1..]);
      } else {
        assert Shortest(p)[1..] == Shortest(p[1..]);
      }
    }
  }

  lemma {:induction false} NothingShorter(s: string, p: string)
    requires Glob(s, p)
    ensures |s| >= |Shortest(p)|
    decreases |p|
  {
    if p != "" {
      if p[0] == '*' {
        var k :| 0 <= k <= |s| && Glob(s[k..], p[1..]);
        NothingShorter(s[k..], p[1..]);
      } else {
        NothingShorter(s[1..], p[1..]);
      }
    }
  }

  lemma {:induction false} TightenLengthens(p: string)
    requires EndsInTwoStars(p)
    ensures |Shortest(Tighten(p))| == |Shortest(p)| + 1
  {
    if AllStars(p) {
      StarsAreShort(p);
      assert "?*"[1..] == "*" && "*"[1..] == "";
      assert Shortest("*") == "";
    } else {
      assert |p| > 2;
      assert p[1..][|p| - 3] == p[|p| - 2] && p[1..][|p| - 2] == p[|p| - 1];
      TightenLengthens(p[1..]);
      assert Tighten(p)[1..] == Tighten(p[1..]);
    }
  }

  lemma {:induction false} StarsAreShort(p: string)
    requires AllStars(p)
    ensures Shortest(p) == ""
  {
    if p != "" { StarsAreShort(p[1..]); }
  }

  /** match_pattern agrees with the meaning of the pattern on all strings exactly when the
      pattern does not end in two asterisks. */
  lemma {:induction false} CompleteIff(p: string)
    ensures (forall s :: Glob(s, Tighten(p)) == Glob(s, p)) <==> !EndsInTwoStars(p)
  {
    if EndsInTwoStars(p) {
      var s := Shortest(p);
      ShortestMatches(p);
      TightenLengthens(p);
      if Glob(s, Tighten(p)) { NothingShorter(s, Tighten(p)); }
      assert Glob(s, Tighten(p)) != Glob(s, p);
    } else {
      TightenIsIdentity(p);
    }
  }

  // ----- match_pattern_list

  /** One item of a pattern list. */
  datatype Sub = Sub(negated: bool, text: string)

  const SUB_LIMIT: nat := 1023

  function Comma(p: string): (k: nat)
    ensures k <= |p| && (k < |p| ==> p[k] == ',') && forall i | 0 <= i < k :: p[i] != ','
  {
    if p == "" || p[0] == ',' then 0 else 1 + Comma(p[1..])
  }

  /** What follows the comma, if there is one. */
  function AfterComma(p: string): (r: string)
    ensures |r| <= |p| && (p != "" ==> |r| < |p|)
  {
    if Comma(p) < |p| then p[Comma(p) + 1..] else ""
  }

  function Bare(p: string): string { if p != "" && p[0] == '!' then p[1..] else p }

  /** The items of a list: nothing follows a comma at the end. */
  function Subs(p: string): seq<Sub>
    decreases |p|
  {
    if p == "" then []
    else [Sub(p[0] == '!', Bare(p)[..Comma(Bare(p))])] + Subs(AfterComma(Bare(p)))
  }

  function LowerChar(c: char): char { if 'A' <= c <= 'Z' then c - 'A' + 'a' else c }

  function Lower(s: string): (r: string)
    ensures |r| == |s| && forall i | 0 <= i < |s| :: r[i] == LowerChar(s[i])
  {
    seq(|s|, i requires 0 <= i < |s| => LowerChar(s[i]))
  }

  function Fold(text: string, dolower: bool): string { if dolower then Lower(text) else text }

  predicate Hit(subject: string, sub: Sub, dolower: bool) { Glob(subject, Tighten(Fold(sub.text, dolower))) }

  /** The number of items before the first that does not fit the buffer. */
  function Usable(subs: seq<Sub>): (n: nat)
    ensures n <= |subs| && (forall i | 0 <= i < n :: |subs[i].text| < SUB_LIMIT)
    ensures n < |subs| ==> |subs[n].text| >= SUB_LIMIT
  {
    if subs == [] || |subs[0].text| >= SUB_LIMIT then 0 else 1 + Usable(subs[1..])
  }

  predicate HitAmong(subject: string, subs: seq<Sub>, n: nat, negated: bool, dolower: bool)
    requires n <= |subs|
  {
    exists i | 0 <= i < n :: subs[i].negated == negated && Hit(subject, subs[i], dolower)
  }

  /** -1 for a negated item that matches, 1 for another that does; an item too long for the
      buffer ends the search with 0. */
  function ListVerdict(subject: string, subs: seq<Sub>, dolower: bool): int
  {
    var n := Usable(subs);
    if HitAmong(subject, subs, n, true, dolower) then -1
    else if n < |subs| then 0
    else if HitAmong(subject, subs, n, false, dolower) then 1
    else 0
  }

  /** The inner loop: copy up to a comma, as far as the buffer goes. */
  method CopySub(p: string, dolower: bool) returns (sub: string, rest: string)
    ensures |sub| < SUB_LIMIT ==> sub == Fold(p[..Comma(p)], dolower) && rest == AfterComma(p)
    ensures |sub| >= SUB_LIMIT <==> Comma(p) >= SUB_LIMIT
    ensures |rest| <= |p| && (p != "" ==> |rest| < |p|)
  {
    sub := "";
    var i := 0;
    while i < |p| && |sub| < SUB_LIMIT && p[i] != ','
      invariant 0 <= i <= |p| && |sub| == i <= SUB_LIMIT && i <= Comma(p)
      invariant sub == Fold(p[..i], dolower)
    {
      var c := if dolower && 'A' <= p[i] <= 'Z' then p[i] - 'A' + 'a' else p[i];
      sub := sub + [c];
      i := i + 1;
    }
    rest := if i < |p| && p[i] == ',' then p[i + 1..] else p[i..];
  }

  method MatchPatternList(subject: string, pattern: string, dolower: bool) returns (r: int)
    ensures r == ListVerdict(subject, Subs(pattern), dolower)
  {
    hide Glob;
    hide Tighten;
    hide Fold;
    hide Subs;
    hide Comma;
    hide AfterComma;
    var positive := false;
    var p := pattern;
    ghost var subs, n := Subs(pattern), 0;
    NoSubs();
    while p != ""
      invariant 0 <= n <= |subs| && subs[n..] == Subs(p) && n <= Usable(subs)
      invariant !HitAmong(subject, subs, n, true, dolower)
      invariant positive == HitAmong(subject, subs, n, false, dolower)
      decreases |p|
    {
      var negated := p[0] == '!';
      var body := if negated then p[1..] else p;
      var sub, rest := CopySub(body, dolower);
      NextUsable(subs, n, p);
      if |sub| >= SUB_LIMIT { return 0; }
      var matches := MatchPattern(subject, sub);
      if matches {
        if negated { return -1; }
        positive := true;
      }
      n := n + 1;
      p := rest;
    }
    return if positive then 1 else 0;
  }

  lemma {:induction false} NextUsable(subs: seq<Sub>, n: nat, p: string)
    requires p != "" && n <= |subs| && subs[n..] == Subs(p) && n <= Usable(subs)
    ensures n < |subs| && subs[n] == Sub(p[0] == '!', Bare(p)[..Comma(Bare(p))])
    ensures subs[n + 1..] == Subs(AfterComma(Bare(p)))
    ensures n < Usable(subs) <==> Comma(Bare(p)) < SUB_LIMIT
  {
    assert subs[n] == subs[n..][0];
    assert subs[n + 1..] == subs[n..][1..];
  }

  /** When every item fits: -1 exactly for a matching negated item, otherwise 1 exactly for a
      matching other item. */
  lemma {:induction false} ListOfShortItems(subject: string, pattern: string, dolower: bool)
    requires forall i | 0 <= i < |Subs(pattern)| :: |Subs(pattern)[i].text| < SUB_LIMIT
    ensures var subs := Subs(pattern);
            ListVerdict(subject, subs, dolower) ==
            if HitAmong(subject, subs, |subs|, true, dolower) then -1
            else if HitAmong(subject, subs, |subs|, false, dolower) then 1 else 0
  {
    assert Usable(Subs(pattern)) == |Subs(pattern)|;
  }

  function Show(sub: Sub): string { (if sub.negated then "!" else "") + sub.text }

  function Join(subs: seq<Sub>): string
  {
    if subs == [] then "" else if |subs| == 1 then Show(subs[0]) else Show(subs[0]) + "," + Join(subs[1..])
  }

  /** An item that can be written in a list. */
  predicate Writable(sub: Sub) { ',' !in sub.text && (!sub.negated && sub.text != "" ==> sub.text[0] != '!') }

  lemma {:induction false} CommaAt(text: string, rest: string)
    requires ',' !in text && (rest == "" || rest[0] == ',')
    ensures Comma(text + rest) == |text|
  {
    if text == "" {
      assert text + rest == rest;
    } else {
      CommaAt(text[1..], rest);
      assert (text + rest)[1..] == text[1..] + rest;
      assert text[0] in text;
    }
  }

  /** Splitting off the first item. */
  lemma {:induction false} FirstSub(sub: Sub, rest: string)
    requires Writable(sub) && (rest == "" || rest[0] == ',') && (sub != Sub(false, "") || rest != "")
    ensures Subs(Show(sub) + rest) == [sub] + Subs(if rest == "" then "" else rest[1..])
  {
    hide Comma;
    BareShown(sub, rest);
    CommaAt(sub.text, rest);
    assert (sub.text + rest)[..|sub.text|] == sub.text;
    if rest != "" { assert (sub.text + rest)[|sub.text| + 1..] == rest[1..]; }
  }

  /** The items of a list are those it was put together from; only an empty last item is lost. */
  lemma {:induction false} SubsOfJoin(subs: seq<Sub>)
    requires forall i | 0 <= i < |subs| :: Writable(subs[i])
    requires subs == [] || subs[|subs| - 1] != Sub(false, "")
    ensures Subs(Join(subs)) == subs
  {
    hide Subs;
    hide Writable;
    hide Show;
    if subs == [] {
      NoSubs();
    } else if |subs| == 1 {
      FirstSub(subs[0], "");
      NoSubs();
      assert Show(subs[0]) + "" == Show(subs[0]);
    } else {
      var rest := "," + Join(subs[1..]);
      assert Join(subs) == Show(subs[0]) + rest;
      assert rest[1..] == Join(subs[1..]);
      FirstSub(subs[0], rest);
      SubsOfJoin(subs[1..]);
    }
  }

  lemma NoSubs()
    ensures Subs("") == []
  {
  }

  lemma BareShown(sub: Sub, rest: string)
    requires Writable(sub) && (rest == "" || rest[0] == ',') && (sub != Sub(false, "") || rest != "")
    ensures var p := Show(sub) + rest; p != "" && (p[0] == '!') == sub.negated && Bare(p) == sub.text + rest
  {
    var p := Show(sub) + rest;
    if sub.negated { assert p[1..] == sub.text + rest; } else { assert p == sub.text + rest; }
  }

  // ----- match_list

  const MAX_PROP: nat := 40

  /** The items that strsep yields before the first empty one. */
  function Items(s: string): seq<string>
    decreases |s|
  {
    if Comma(s) == 0 then [] else [s[..Comma(s)]] + Items(AfterComma(s))
  }

  /** The items that count as the server's. */
  function Proposals(server: string): (r: seq<string>)
    ensures |r| <= MAX_PROP
  {
    if |Items(server)| <= MAX_PROP then Items(server) else Items(server)[..MAX_PROP]
  }

  /** The index of the first item that is also proposed. */
  function FirstCommon(items: seq<string>, proposals: seq<string>): (i: nat)
    ensures i <= |items| && (i < |items| ==> items[i] in proposals)
    ensures forall j | 0 <= j < i :: items[j] !in proposals
  {
    if items == [] || items[0] in proposals then 0 else 1 + FirstCommon(items[1..], proposals)
  }

  function Chosen(client: string, server: string): (r: Option<string>)
    ensures r.Some? ==> r.value in Items(client) && r.value in Proposals(server)
    ensures r.None? ==> forall x | x in Items(client) :: x !in Proposals(server)
  {
    var items, proposals := Items(client), Proposals(server);
    var i := FirstCommon(items, proposals);
    if i < |items| then Some(items[i]) else None
  }

  /** The string from its i-th item on. */
  function From(s: string, i: nat): (r: string)
    ensures |r| <= |s|
    decreases i
  {
    if i == 0 then s else From(AfterComma(s), i - 1)
  }

  /** Where the caller is told to go on. */
  function Next(client: string, i: nat): nat
  {
    var rest := From(client, i);
    if i < |Items(client)| && Comma(rest) < |rest| then |client| - |AfterComma(rest)| else Comma(client)
  }

  /** The loop over the server's list. */
  method ReadProposals(server: string) returns (proposals: seq<string>)
    ensures proposals == Proposals(server)
  {
    hide Items;
    hide Comma;
    hide AfterComma;
    proposals := [];
    var sp := server;
    while Comma(sp) != 0 && |proposals| < MAX_PROP
      invariant |proposals| <= MAX_PROP && Items(server) == proposals + Items(sp)
      decreases |sp|
    {
      ItemsStep(proposals, sp);
      proposals, sp := proposals + [sp[..Comma(sp)]], AfterComma(sp);
    }
    if Comma(sp) == 0 { NoItems(sp); }
    assert Items(server)[..|proposals|] == proposals;
  }

  lemma {:induction false} ItemsStep(done: seq<string>, sp: string)
    requires Comma(sp) != 0
    ensures done + Items(sp) == done + [sp[..Comma(sp)]] + Items(AfterComma(sp))
  {
    hide Comma;
    hide AfterComma;
  }

  /** The inner loop over the proposals. */
  method IsProposed(p: string, proposals: seq<string>) returns (found: bool)
    ensures found == (p in proposals)
  {
    for j := 0 to |proposals|
      invariant forall k | 0 <= k < j :: proposals[k] != p
    {
      if p == proposals[j] { return true; }
    }
    return false;
  }

  method MatchList(client: string, server: string) returns (name: Option<string>, next: nat)
    ensures name == Chosen(client, server)
    ensures next == Next(client, FirstCommon(Items(client), Proposals(server)))
  {
    hide Items;
    hide Proposals;
    hide AfterComma;
    hide From;
    var proposals := ReadProposals(server);
    var cp := client;
    ghost var items, n := Items(client), 0;
    FromStart(client);
    while Comma(cp) != 0
      invariant 0 <= n <= |items| && items[n..] == Items(cp) && cp == From(client, n)
      invariant n <= FirstCommon(items, proposals)
      decreases |cp|
    {
      var p := cp[..Comma(cp)];
      NextItem(items, n, cp);
      var found := IsProposed(p, proposals);
      if found {
        return Some(p), if Comma(cp) == |cp| then Comma(client) else |client| - |AfterComma(cp)|;
      }
      FromNext(client, n);
      n := n + 1;
      cp := AfterComma(cp);
    }
    NoItems(cp);
    return None, Comma(client);
  }

  lemma {:induction false} FromStart(s: string)
    ensures From(s, 0) == s
  {
  }

  lemma {:induction false} NoItems(cp: string)
    requires Comma(cp) == 0
    ensures Items(cp) == []
  {
  }

  lemma {:induction false} NextItem(items: seq<string>, n: nat, cp: string)
    requires Comma(cp) != 0 && n <= |items| && items[n..] == Items(cp)
    ensures n < |items| && items[n] == cp[..Comma(cp)] && items[n + 1..] == Items(AfterComma(cp))
  {
    assert items[n] == items[n..][0];
    assert items[n + 1..] == items[n..][1..];
  }

  lemma {:induction false} FromNext(s: string, n: nat)
    ensures From(s, n + 1) == AfterComma(From(s, n))
    decreases n
  {
    if n > 0 { FromNext(AfterComma(s), n - 1); }
  }

  lemma SuffixOfSuffix(u: string, t: string, s: string)
    requires Suffix(u, t) && Suffix(t, s)
    ensures Suffix(u, s)
  {
    assert s[|s| - |u|..] == s[|s| - |t|..][|t| - |u|..];
  }

  lemma SuffixItself(s: string)
    ensures Suffix(s, s)
  {
  }

  lemma RestIsSuffix(s: string)
    ensures Suffix(AfterComma(s), s)
  {
    hide Comma;
  }

  lemma {:induction false} FromIsSuffix(s: string, n: nat)
    ensures Suffix(From(s, n), s)
    decreases n
  {
    hide Suffix;
    hide Comma;
    hide AfterComma;
    if n == 0 {
      SuffixItself(s);
    } else {
      FromIsSuffix(AfterComma(s), n - 1);
      RestIsSuffix(s);
      SuffixOfSuffix(From(s, n), AfterComma(s), s);
    }
  }

  /** The caller goes on after the chosen item, unless that is a last item which is not also
      the first: then it goes back to the comma after the first. */
  lemma NextIsAfterChosen(client: string, i: nat)
    requires i < |Items(client)|
    ensures client[Next(client, i)..] == From(client, i + 1)
            <==> i == 0 || Comma(From(client, i)) < |From(client, i)|
  {
    FromNext(client, i);
    FromIsSuffix(client, i + 1);
    if i == 0 { assert From(client, 0) == client; }
    if i > 0 { FirstHasComma(client); }
  }

  lemma {:induction false} FirstHasComma(client: string)
    requires |Items(client)| > 1
    ensures Comma(client) < |client|
  {
    assert |Items(AfterComma(client))| > 0;
  }
}
