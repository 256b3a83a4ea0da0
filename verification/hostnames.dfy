/** Host names: normal forms of what appears on an ssh command line and in reverse DNS. */
module HostNames {
  import opened Wrappers

  // ----- String pieces --------------------------------------------------------------

  predicate IsQuote(c: char) {
    c == '\'' || c == '"'
  }

  /** Unicode White_Space, which `trim` removes. */
  predicate IsSpace(c: char) {
    || '\t' <= c <= '\r' || c == ' ' || c == '\U{85}' || c == '\U{A0}' || c == '\U{1680}'
    || '\U{2000}' <= c <= '\U{200A}' || c == '\U{2028}' || c == '\U{2029}' || c == '\U{202F}'
    || c == '\U{205F}' || c == '\U{3000}'
  }

  function TrimStart(s: string, drop: char -> bool): string {
    if s != "" && drop(s[0]) then TrimStart(s[1..], drop) else s
  }

  function TrimEnd(s: string, drop: char -> bool): string {
    if s != "" && drop(s[|s| - 1]) then TrimEnd(s[..|s| - 1], drop) else s
  }

  function Trim(s: string, drop: char -> bool): string {
    TrimEnd(TrimStart(s, drop), drop)
  }

  /** The piece after the last `c`, or everything. */
  function AfterLast(s: string, c: char): string {
    if c in s then AfterLast(s[1..], c) else s
  }

  /** The piece before the first `c`, or everything. */
  function BeforeFirst(s: string, c: char): string {
    if s == "" || s[0] == c then "" else [s[0]] + BeforeFirst(s[1..], c)
  }

  function StripBrackets(s: string): string {
    if |s| >= 2 && s[0] == '[' && s[|s| - 1] == ']' then s[1..|s| - 1] else s
  }

  function LowerChar(c: char): char {
    if 'A' <= c <= 'Z' then (c as int + 32) as char else c
  }

  function Lower(s: string): (r: string)
    ensures |r| == |s|
    ensures forall i :: 0 <= i < |s| ==> r[i] == LowerChar(s[i])
  {
    if s == "" then "" else [LowerChar(s[0])] + Lower(s[1..])
  }

  predicate HostChar(c: char) {
    'a' <= c <= 'z' || '0' <= c <= '9' || c == '.' || c == '-'
  }

  // ----- Normalising a destination ---------------------------------------------------

  /** What is looked at as a host: quotes, user, brackets and port are taken off. */
  function Undecorated(raw: string): string {
    var unquoted := Trim(raw, IsQuote);
    var withoutUser := AfterLast(unquoted, '@');
    var withoutBrackets := StripBrackets(withoutUser);
    BeforeFirst(withoutBrackets, ':')
  }

  function Accepted(host: string): Option<string> {
    if host == "" || '/' in host then None
    else if forall i :: 0 <= i < |host| ==> HostChar(host[i]) || 'A' <= host[i] <= 'Z' then Some(host)
    else None
  }

  function NormalizeSshHost(raw: string): Option<string> {
    Accepted(Lower(Trim(Undecorated(raw), IsSpace)))
  }

  /** The normal form: not empty, lowercase letters, digits, dots and dashes. */
  predicate Canonical(h: string) {
    h != "" && forall i :: 0 <= i < |h| ==> HostChar(h[i])
  }

  /** What the normaliser returns is canonical. */
  lemma NormalizedIsCanonical(raw: string)
    ensures NormalizeSshHost(raw).Some? ==> Canonical(NormalizeSshHost(raw).value)
  {
  }

  lemma {:induction false} NothingToTrim(s: string, drop: char -> bool)
    requires s == "" || (!drop(s[0]) && !drop(s[|s| - 1]))
    ensures Trim(s, drop) == s
  {
  }

  lemma {:induction false} NoPieces(s: string, c: char)
    requires c !in s
    ensures AfterLast(s, c) == s && BeforeFirst(s, c) == s
  {
    if s != "" {
      NoPieces(s[1..], c);
    }
  }

  lemma {:induction false} AfterLastOf(user: string, c: char, host: string)
    requires c !in host
    ensures AfterLast(user + [c] + host, c) == host
    decreases user
  {
    var s := user + [c] + host;
    assert s[|user|] == c;
    if user == "" {
      assert s[1..] == host;
    } else {
      assert s[1..] == user[1..] + [c] + host;
      AfterLastOf(user[1..], c, host);
    }
  }

  lemma {:induction false} BeforeFirstOf(host: string, c: char, rest: string)
    requires c !in host
    ensures BeforeFirst(host + [c] + rest, c) == host
    decreases host
  {
    var s := host + [c] + rest;
    if host != "" {
      assert s[1..] == host[1..] + [c] + rest;
      BeforeFirstOf(host[1..], c, rest);
    }
  }

  lemma {:induction false} TrimStartSkips(quotes: string, s: string, drop: char -> bool)
    requires forall i :: 0 <= i < |quotes| ==> drop(quotes[i])
    ensures TrimStart(quotes + s, drop) == TrimStart(s, drop)
    decreases quotes
  {
    if quotes == "" {
      assert quotes + s == s;
    } else {
      assert (quotes + s)[1..] == quotes[1..] + s;
      TrimStartSkips(quotes[1..], s, drop);
    }
  }

  lemma {:induction false} TrimEndSkips(s: string, quotes: string, drop: char -> bool)
    requires forall i :: 0 <= i < |quotes| ==> drop(quotes[i])
    ensures TrimEnd(s + quotes, drop) == TrimEnd(s, drop)
    decreases quotes
  {
    if quotes == "" {
      assert s + quotes == s;
    } else {
      var n := |quotes| - 1;
      assert (s + quotes)[..|s| + n] == s + quotes[..n];
      TrimEndSkips(s, quotes[..n], drop);
    }
  }

  /** Leading characters may be trimmed off `user`, but trimming stops at a kept character. */
  lemma {:induction false} TrimStartStops(user: string, c: char, rest: string, drop: char -> bool)
    returns (kept: string)
    requires !drop(c)
    ensures TrimStart(user + [c] + rest, drop) == kept + [c] + rest
    decreases user
  {
    kept := user;
    if user != "" && drop(user[0]) {
      assert (user + [c] + rest)[1..] == user[1..] + [c] + rest;
      kept := TrimStartStops(user[1..], c, rest, drop);
    }
  }

  ghost predicate AllQuotes(s: string) {
    forall i :: 0 <= i < |s| ==> IsQuote(s[i])
  }

  ghost predicate AllDigits(s: string) {
    forall i :: 0 <= i < |s| ==> '0' <= s[i] <= '9'
  }

  /** The core of a destination, without quotes and user: a host and an optional port. */
  function HostPort(host: string, port: Option<string>): string {
    match port
    case None => host
    case Some(p) => host + ":" + p
  }

  function WithUser(user: Option<string>, core: string): string {
    match user
    case None => core
    case Some(u) => u + "@" + core
  }

  ghost predicate AllBlank(s: string) {
    forall i :: 0 <= i < |s| ==> IsSpace(s[i])
  }

  lemma {:induction false} BlanksAround(before: string, host: string, after: string)
    requires AllBlank(before) && AllBlank(after)
    requires host != "" && !IsSpace(host[0]) && !IsSpace(host[|host| - 1])
    ensures Trim(before + host + after, IsSpace) == host
  {
    assert before + host + after == before + (host + after);
    TrimStartSkips(before, host + after, IsSpace);
    assert TrimStart(host + after, IsSpace) == host + after;
    TrimEndSkips(host, after, IsSpace);
  }

  lemma {:induction false} HostPortFacts(before: string, host: string, after: string, port: Option<string>)
    requires Canonical(Lower(host)) && (port.Some? ==> AllDigits(port.value)) && AllBlank(before) && AllBlank(after)
    ensures var core := HostPort(before + host + after, port);
      && core != "" && !IsQuote(core[0]) && !IsQuote(core[|core| - 1]) && core[0] != '[' && '@' !in core
      && StripBrackets(core) == core && BeforeFirst(core, ':') == before + host + after
      && Trim(before + host + after, IsSpace) == host
  {
    assert forall i :: 0 <= i < |host| ==> HostChar(LowerChar(host[i]));
    assert !IsSpace(host[0]) && !IsSpace(host[|host| - 1]);
    BlanksAround(before, host, after);
    var padded := before + host + after;
    assert forall i :: 0 <= i < |padded| ==> IsSpace(padded[i]) || HostChar(LowerChar(padded[i]));
    PaddedPort(padded, port);
  }

  lemma {:induction false} PaddedPort(padded: string, port: Option<string>)
    requires padded != "" && forall i :: 0 <= i < |padded| ==> IsSpace(padded[i]) || HostChar(LowerChar(padded[i]))
    requires port.Some? ==> AllDigits(port.value)
    ensures var core := HostPort(padded, port);
      && core != "" && !IsQuote(core[0]) && !IsQuote(core[|core| - 1]) && core[0] != '[' && '@' !in core
      && BeforeFirst(core, ':') == padded
  {
    assert ':' !in padded && '@' !in padded;
    match port {
      case None => NoPieces(padded, ':');
      case Some(p) =>
        BeforeFirstOf(padded, ':', p);
        assert HostPort(padded, port) == padded + [':'] + p;
    }
  }

  lemma QuotesAround(left: string, core: string, right: string)
    requires AllQuotes(left) && AllQuotes(right)
    requires core != "" && !IsQuote(core[0]) && !IsQuote(core[|core| - 1])
    ensures Trim(left + core + right, IsQuote) == core
  {
    assert left + core + right == left + (core + right);
    TrimStartSkips(left, core + right, IsQuote);
    assert TrimStart(core + right, IsQuote) == core + right;
    TrimEndSkips(core, right, IsQuote);
  }

  /** With a user prefix, trimming may eat into the user but not past its '@'. */
  lemma QuotesAroundUser(left: string, user: string, core: string, right: string) returns (kept: string)
    requires AllQuotes(left) && AllQuotes(right)
    requires core != "" && !IsQuote(core[|core| - 1])
    ensures Trim(left + (user + ['@'] + core) + right, IsQuote) == kept + ['@'] + core
  {
    var raw := left + (user + ['@'] + core) + right;
    assert raw == left + (user + ['@'] + (core + right));
    TrimStartSkips(left, user + ['@'] + (core + right), IsQuote);
    kept := TrimStartStops(user, '@', core + right, IsQuote);
    var whole := kept + ['@'] + core;
    assert kept + ['@'] + (core + right) == whole + right;
    TrimEndSkips(whole, right, IsQuote);
    assert whole[|whole| - 1] == core[|core| - 1];
  }

  lemma NormalizeCore(raw: string, before: string, host: string, after: string, port: Option<string>)
    requires Canonical(Lower(host)) && (port.Some? ==> AllDigits(port.value)) && AllBlank(before) && AllBlank(after)
    requires AfterLast(Trim(raw, IsQuote), '@') == HostPort(before + host + after, port)
    ensures NormalizeSshHost(raw) == Some(Lower(host))
  {
    HostPortFacts(before, host, after, port);
    assert '/' !in Lower(host);
  }

  /** Quotes and a user in front of a core without either. */
  lemma UserUndecorates(left: string, user: Option<string>, core: string, right: string)
    requires AllQuotes(left) && AllQuotes(right)
    requires core != "" && !IsQuote(core[0]) && !IsQuote(core[|core| - 1]) && '@' !in core
    ensures AfterLast(Trim(left + WithUser(user, core) + right, IsQuote), '@') == core
  {
    match user {
      case None =>
        QuotesAround(left, core, right);
        NoPieces(core, '@');
      case Some(u) =>
        var kept := QuotesAroundUser(left, u, core, right);
        AfterLastOf(kept, '@', core);
    }
  }

  /**
   The normaliser undoes decoration: outer quotes of either kind and number, any
   user prefix whatever it contains, blanks around the host, and a digit port;
   letters come out in lower case.
   */
  lemma NormalizeUndecorates(left: string, user: Option<string>, before: string, host: string, after: string,
                             port: Option<string>, right: string)
    requires AllQuotes(left) && AllQuotes(right) && AllBlank(before) && AllBlank(after)
    requires Canonical(Lower(host)) && (port.Some? ==> AllDigits(port.value))
    ensures NormalizeSshHost(left + WithUser(user, HostPort(before + host + after, port)) + right) == Some(Lower(host))
  {
    var core := HostPort(before + host + after, port);
    HostPortFacts(before, host, after, port);
    UserUndecorates(left, user, core, right);
    NormalizeCore(left + WithUser(user, core) + right, before, host, after, port);
  }

  /** So are brackets around the host. */
  lemma {:induction false} NormalizeBracketed(left: string, user: Option<string>, host: string, right: string)
    requires AllQuotes(left) && AllQuotes(right) && Canonical(Lower(host))
    ensures NormalizeSshHost(left + WithUser(user, "[" + host + "]") + right) == Some(Lower(host))
  {
    HostFacts(host);
    BracketFacts(host);
    UserUndecorates(left, user, "[" + host + "]", right);
    assert Undecorated(left + WithUser(user, "[" + host + "]") + right) == host;
    assert Accepted(Lower(host)) == Some(Lower(host));
  }

  lemma {:induction false} HostFacts(host: string)
    requires Canonical(Lower(host))
    ensures '@' !in host && BeforeFirst(host, ':') == host && Trim(host, IsSpace) == host && '/' !in Lower(host)
  {
    assert forall i :: 0 <= i < |host| ==> HostChar(LowerChar(host[i]));
    assert ':' !in host;
    NoPieces(host, ':');
    NothingToTrim(host, IsSpace);
  }

  lemma {:induction false} BracketFacts(host: string)
    requires '@' !in host
    ensures var core := "[" + host + "]";
      core != "" && !IsQuote(core[0]) && !IsQuote(core[|core| - 1]) && '@' !in core && StripBrackets(core) == host
  {
    var core := "[" + host + "]";
    assert core[0] == '[' && core[|core| - 1] == ']' && core[1..|core| - 1] == host;
  }

  /** A port behind the brackets is not understood, and neither is half a pair. */
  lemma {:induction false} BracketsRefused(
    left: string, user: Option<string>, host: string, port: string, right: string)
    requires AllQuotes(left) && AllQuotes(right) && Canonical(Lower(host)) && AllDigits(port)
    ensures NormalizeSshHost(left + WithUser(user, "[" + host + "]:" + port) + right) == None
    ensures NormalizeSshHost(left + WithUser(user, "[" + host) + right) == None
  {
    assert forall i :: 0 <= i < |host| ==> HostChar(LowerChar(host[i]));
    var half, whole := "[" + host, "[" + host + "]";
    BeforeFirstOf(whole, ':', port);
    assert "[" + host + "]:" + port == whole + [':'] + port;
    NoPieces(half, ':');
    BracketRefused(left, user, whole + [':'] + port, whole, right);
    BracketRefused(left, user, half, half, right);
  }

  lemma {:induction false} BracketRefused(
    left: string, user: Option<string>, core: string, piece: string, right: string)
    requires AllQuotes(left) && AllQuotes(right)
    requires core != "" && core[0] == '[' && core[|core| - 1] != ']' && !IsQuote(core[|core| - 1]) && '@' !in core
    requires BeforeFirst(core, ':') == piece && piece != "" && piece[0] == '[' && !IsSpace(piece[|piece| - 1])
    ensures NormalizeSshHost(left + WithUser(user, core) + right) == None
  {
    UserUndecorates(left, user, core, right);
    assert StripBrackets(core) == core;
    NothingToTrim(piece, IsSpace);
    assert Lower(piece)[0] == '[';
  }

  // ----- The characters, one by one -----------------------------------------------------

  lemma {:induction false} OneCharPieces(c: char, drop: char -> bool)
    ensures Trim([c], drop) == if drop(c) then "" else [c]
    ensures AfterLast([c], '@') == if c == '@' then "" else [c]
    ensures BeforeFirst([c], ':') == if c == ':' then "" else [c]
  {
    assert [c][1..] == "" && [c] + "" == [c];
    assert BeforeFirst([c][1..], ':') == "";
    if drop(c) {
      TrimStartSkips([c], "", drop);
    } else {
      NothingToTrim([c], drop);
    }
  }

  lemma {:induction false} NoCharPieces(drop: char -> bool)
    ensures Trim("", drop) == "" && AfterLast("", '@') == "" && BeforeFirst("", ':') == ""
  {
  }

  lemma {:induction false} OneCharUndecorated(c: char)
    ensures Undecorated([c]) == if IsQuote(c) || c == '@' || c == ':' then "" else [c]
  {
    OneCharPieces(c, IsQuote);
    NoCharPieces(IsQuote);
  }

  /** Letters, digits, the dash and the dot, by their codes. */
  ghost predicate PlainCode(code: int) {
    97 <= code <= 122 || 65 <= code <= 90 || 48 <= code <= 57 || code == 45 || code == 46
  }

  lemma {:induction false} AcceptedOne(c: char)
    ensures Accepted(Lower("")) == None
    ensures Lower([c]) == [LowerChar(c)]
    ensures Accepted([LowerChar(c)]) == if PlainCode(c as int) then Some([LowerChar(c)]) else None
  {
    assert [LowerChar(c)][0] == LowerChar(c);
  }

  /** A host of one character: a letter, a digit, the dash or the dot. */
  lemma {:induction false} OneCharHosts(c: char)
    ensures NormalizeSshHost([c]) == if PlainCode(c as int) then Some([LowerChar(c)]) else None
  {
    OneCharUndecorated(c);
    OneCharPieces(c, IsSpace);
    NoCharPieces(IsSpace);
    AcceptedOne(c);
  }

  /** Letters come out in lower case, everything else as it is. */
  lemma {:induction false} LowerCases(c: char)
    ensures LowerChar(c) as int == if 65 <= c as int <= 90 then c as int + 32 else c as int
    ensures LowerChar('A') == 'a' && LowerChar('Z') == 'z'
  {
  }

  lemma {:induction false} TwoCharTrims(c: char, d: char, drop: char -> bool)
    ensures !drop(d) ==> Trim([c, d], drop) == if drop(c) then [d] else [c, d]
    ensures !drop(c) ==> Trim([c, d], drop) == if drop(d) then [c] else [c, d]
  {
    assert [c, d] == [c] + [d];
    if drop(c) && !drop(d) {
      TrimStartSkips([c], [d], drop);
      NothingToTrim([d], drop);
    } else if !drop(c) && drop(d) {
      TrimEndSkips([c], [d], drop);
      NothingToTrim([c], drop);
    } else if !drop(c) {
      NothingToTrim([c, d], drop);
    }
  }

  lemma {:induction false} TwoCharPieces(c: char, d: char)
    ensures AfterLast([c, d], '@') == if d == '@' then "" else if c == '@' then [d] else [c, d]
    ensures BeforeFirst([c, d], ':') == if c == ':' then "" else if d == ':' then [c] else [c, d]
  {
    assert [c, d][1..] == [d];
    OneCharPieces(d, IsQuote);
    assert AfterLast([c, d], '@') == if '@' in [c, d] then AfterLast([d], '@') else [c, d];
  }

  /** The 25 blanks of Unicode. */
  lemma {:induction false} BlankTable(c: char)
    ensures IsSpace(c) <==> c as int in {
      9, 10, 11, 12, 13, 32, 0x85, 0xA0, 0x1680, 0x2000, 0x2001, 0x2002, 0x2003, 0x2004, 0x2005, 0x2006, 0x2007,
      0x2008, 0x2009, 0x200A, 0x2028, 0x2029, 0x202F, 0x205F, 0x3000}
  {
  }

  /** A piece of two characters, neither blank, is not the host "a". */
  lemma {:induction false} TwoCharHosts(c: char, d: char)
    requires !IsSpace(c) && !IsSpace(d)
    ensures Accepted(Lower(Trim([c, d], IsSpace))) != Some(['a'])
  {
    NothingToTrim([c, d], IsSpace);
    assert |Lower([c, d])| == 2;
  }

  lemma {:induction false} HostA()
    ensures Accepted(Lower(Trim(['a'], IsSpace))) == Some(['a']) && Accepted(Lower(Trim("", IsSpace))) == None
  {
    OneCharPieces('a', IsSpace);
    NoCharPieces(IsSpace);
    AcceptedOne('a');
  }

  lemma {:induction false} UndecoratedBefore(c: char)
    ensures Undecorated([c, 'a']) == if IsQuote(c) || c == '@' then ['a'] else if c == ':' then "" else [c, 'a']
  {
    TwoCharTrims(c, 'a', IsQuote);
    TwoCharPieces(c, 'a');
    OneCharPieces('a', IsQuote);
  }

  lemma {:induction false} UndecoratedAfter(c: char)
    ensures Undecorated(['a', c]) == if IsQuote(c) || c == ':' then ['a'] else if c == '@' then "" else ['a', c]
  {
    TwoCharTrims('a', c, IsQuote);
    TwoCharPieces('a', c);
    OneCharPieces('a', IsQuote);
    NoCharPieces(IsQuote);
  }

  /** What leaves no trace before a host: a quote of either kind, a blank, and the end of a user. */
  lemma {:induction false} DroppedBefore(c: char)
    ensures NormalizeSshHost([c, 'a']) == Some(['a']) <==> c in "'\"@" || IsSpace(c)
  {
    UndecoratedBefore(c);
    HostA();
    if !IsQuote(c) && c != '@' && c != ':' {
      TwoCharTrims(c, 'a', IsSpace);
      if !IsSpace(c) {
        TwoCharHosts(c, 'a');
      }
    }
  }

  /** And after one: a quote of either kind, a blank, and the start of a port. */
  lemma {:induction false} DroppedAfter(c: char)
    ensures NormalizeSshHost(['a', c]) == Some(['a']) <==> c in "'\":" || IsSpace(c)
  {
    UndecoratedAfter(c);
    HostA();
    if !IsQuote(c) && c != '@' && c != ':' {
      TwoCharTrims('a', c, IsSpace);
      if !IsSpace(c) {
        TwoCharHosts('a', c);
      }
    }
  }

  /** A string is its own normal form exactly when it is canonical; so the normaliser is idempotent. */
  lemma CanonicalIffFixed(h: string)
    ensures NormalizeSshHost(h) == Some(h) <==> Canonical(h)
  {
    NormalizedIsCanonical(h);
    if Canonical(h) {
      LowerFixed(h);
      NormalizeUndecorates("", None, "", h, "", None, "");
      assert "" + h + "" == h;
    }
  }

  lemma LowerFixed(h: string)
    requires Canonical(h)
    ensures Lower(h) == h
  {
    assert forall i :: 0 <= i < |h| ==> Lower(h)[i] == h[i];
  }

  lemma NormalizeIdempotent(raw: string)
    requires NormalizeSshHost(raw).Some?
    ensures NormalizeSshHost(NormalizeSshHost(raw).value) == NormalizeSshHost(raw)
  {
    NormalizedIsCanonical(raw);
    CanonicalIffFixed(NormalizeSshHost(raw).value);
  }

  // ----- Matching an inbound peer with a known host ---------------------------------------

  predicate IsDot(c: char) {
    c == '.'
  }

  function NormalizePeerHostname(raw: string): string {
    var trimmed := TrimEnd(Trim(raw, IsSpace), IsDot);
    match NormalizeSshHost(trimmed)
    case Some(h) => h
    case None => Lower(trimmed)
  }

  function FirstLabel(name: string): string {
    BeforeFirst(name, '.')
  }

  function KeyLabel(name: string): string {
    FirstLabel(NormalizePeerHostname(name))
  }

  /** The four-way test between a known key and a reverse DNS name, both normalised. */
  predicate SameKey(known: string, name: string) {
    || known == name
    || FirstLabel(known) == name
    || known == FirstLabel(name)
    || FirstLabel(known) == FirstLabel(name)
  }

  lemma {:induction false} FirstLabelFixed(name: string)
    ensures FirstLabel(FirstLabel(name)) == FirstLabel(name)
  {
    if name != "" && name[0] != '.' {
      assert FirstLabel(name)[1..] == FirstLabel(name[1..]);
      FirstLabelFixed(name[1..]);
    }
  }

  /** The four tests together say that the first labels are equal, so the match is an equivalence. */
  lemma SameKeyIsFirstLabel(known: string, name: string)
    ensures SameKey(known, name) <==> FirstLabel(known) == FirstLabel(name)
  {
    FirstLabelFixed(known);
    FirstLabelFixed(name);
  }

  /** The search among the known keys, for any way of normalising them. */
  method FindKey(known: seq<string>, normalized: string, normalize: string -> string) returns (key: string)
    ensures if exists i :: 0 <= i < |known| && FirstLabel(normalize(known[i])) == FirstLabel(normalized)
      then key in known && FirstLabel(normalize(key)) == FirstLabel(normalized)
      else key == normalized
  {
    for i := 0 to |known|
      invariant forall j :: 0 <= j < i ==> FirstLabel(normalize(known[j])) != FirstLabel(normalized)
    {
      SameKeyIsFirstLabel(normalize(known[i]), normalized);
      if SameKey(normalize(known[i]), normalized) {
        return known[i];
      }
    }
    return normalized;
  }

  /**
   The key for an inbound peer whose address has a reverse DNS name: a known host
   with the same first label if there is one, else the normalised name.
   */
  method MatchInboundKey(known: seq<string>, reverseName: string) returns (key: string)
    ensures if exists i :: 0 <= i < |known| && KeyLabel(known[i]) == KeyLabel(reverseName)
      then key in known && KeyLabel(key) == KeyLabel(reverseName)
      else key == NormalizePeerHostname(reverseName)
  {
    key := FindKey(known, NormalizePeerHostname(reverseName), NormalizePeerHostname);
  }

  /** Trailing dots do not reach the first label. */
  lemma {:induction false} FirstLabelKeepsDots(h: string)
    ensures FirstLabel(TrimEnd(h, IsDot)) == FirstLabel(h)
    decreases h
  {
    if h != "" && h[|h| - 1] == '.' {
      var init := h[..|h| - 1];
      FirstLabelKeepsDots(init);
      DotAfter(init);
      assert h == init + ['.'];
    }
  }

  lemma {:induction false} DotAfter(h: string)
    ensures FirstLabel(h + ['.']) == FirstLabel(h)
    decreases h
  {
    if h != "" {
      assert (h + ['.'])[1..] == h[1..] + ['.'];
      DotAfter(h[1..]);
    }
  }

  lemma {:induction false} TrimEndIsPrefix(s: string, drop: char -> bool)
    ensures TrimEnd(s, drop) <= s
    decreases s
  {
    if s != "" && drop(s[|s| - 1]) {
      TrimEndIsPrefix(s[..|s| - 1], drop);
    }
  }

  /** Normalising a key that is a canonical host name again keeps its first label. */
  lemma CanonicalKeyLabel(h: string)
    requires Canonical(h)
    ensures FirstLabel(NormalizePeerHostname(h)) == FirstLabel(h)
  {
    NothingToTrim(h, IsSpace);
    FirstLabelKeepsDots(h);
    TrimEndIsPrefix(h, IsDot);
    var t := TrimEnd(h, IsDot);
    assert forall i :: 0 <= i < |t| ==> t[i] == h[i];
    if t != "" {
      CanonicalIffFixed(t);
    }
  }

  // ----- Normalising a name twice ------------------------------------------------------------

  /** Letter case is nothing to `drop`. */
  ghost predicate CaseBlind(drop: char -> bool) {
    forall c :: drop(LowerChar(c)) == drop(c)
  }

  lemma {:induction false} LowerTwice(s: string)
    ensures Lower(Lower(s)) == Lower(s)
  {
    forall i | 0 <= i < |s|
      ensures Lower(Lower(s))[i] == Lower(s)[i]
    {
    }
  }

  lemma {:induction false} LowerSlice(s: string, i: nat, j: nat)
    requires i <= j <= |s|
    ensures Lower(s[i..j]) == Lower(s)[i..j]
  {
    forall k | 0 <= k < j - i
      ensures Lower(s[i..j])[k] == Lower(s)[i..j][k]
    {
    }
  }

  lemma {:induction false} TrimStartLower(s: string, drop: char -> bool)
    requires CaseBlind(drop)
    ensures TrimStart(Lower(s), drop) == Lower(TrimStart(s, drop))
    decreases s
  {
    if s != "" {
      assert drop(LowerChar(s[0])) == drop(s[0]);
      TrimStartLower(s[1..], drop);
      assert Lower(s)[1..] == Lower(s[1..]);
    }
  }

  lemma {:induction false} TrimEndLower(s: string, drop: char -> bool)
    requires CaseBlind(drop)
    ensures TrimEnd(Lower(s), drop) == Lower(TrimEnd(s, drop))
    decreases s
  {
    if s != "" {
      var n := |s| - 1;
      assert drop(LowerChar(s[n])) == drop(s[n]);
      TrimEndLower(s[..n], drop);
      LowerSlice(s, 0, n);
    }
  }

  lemma TrimLower(s: string, drop: char -> bool)
    requires CaseBlind(drop)
    ensures Trim(Lower(s), drop) == Lower(Trim(s, drop))
  {
    TrimStartLower(s, drop);
    TrimEndLower(TrimStart(s, drop), drop);
  }

  lemma {:induction false} AfterLastLower(s: string)
    ensures AfterLast(Lower(s), '@') == Lower(AfterLast(s, '@'))
    decreases s
  {
    if '@' in s {
      var i :| 0 <= i < |s| && s[i] == '@';
      assert Lower(s)[i] == '@';
      assert Lower(s)[1..] == Lower(s[1..]);
      AfterLastLower(s[1..]);
    }
  }

  lemma {:induction false} BeforeFirstLower(s: string, c: char)
    requires c == ':' || c == '.'
    ensures BeforeFirst(Lower(s), c) == Lower(BeforeFirst(s, c))
    decreases s
  {
    if s != "" && s[0] != c {
      assert Lower(s)[1..] == Lower(s[1..]);
      BeforeFirstLower(s[1..], c);
    }
  }

  lemma {:induction false} StripBracketsLower(s: string)
    ensures StripBrackets(Lower(s)) == Lower(StripBrackets(s))
  {
    if |s| >= 2 {
      LowerSlice(s, 1, |s| - 1);
    }
  }

  lemma {:induction false} UndecoratedLower(raw: string)
    ensures Undecorated(Lower(raw)) == Lower(Undecorated(raw))
  {
    TrimLower(raw, IsQuote);
    AfterLastLower(Trim(raw, IsQuote));
    StripBracketsLower(AfterLast(Trim(raw, IsQuote), '@'));
    BeforeFirstLower(StripBrackets(AfterLast(Trim(raw, IsQuote), '@')), ':');
  }

  /** Letter case makes no difference to the normaliser. */
  lemma {:induction false} NormalizeBlindToCase(raw: string)
    ensures NormalizeSshHost(Lower(raw)) == NormalizeSshHost(raw)
  {
    UndecoratedLower(raw);
    TrimLower(Undecorated(raw), IsSpace);
    LowerTwice(Trim(Undecorated(raw), IsSpace));
  }

  /** The part of a name that is normalised. */
  function Stripped(raw: string): string {
    TrimEnd(Trim(raw, IsSpace), IsDot)
  }

  /** What is left of that part when it is stripped once more. */
  function StrippedAgain(t: string): string {
    TrimEnd(TrimEnd(t, IsSpace), IsDot)
  }

  /**
   Exactly the names whose first label outlives a second normalisation. A caller can
   test it: the stripped name does not end in a blank, or it is a host name; or it has
   a dot and, without the blanks at its end, reads as no host or as one with its label.
   */
  predicate LabelSurvives(raw: string) {
    var t := Stripped(raw);
    || t == "" || !IsSpace(t[|t| - 1])
    || NormalizeSshHost(t).Some?
    || ('.' in t
        && match NormalizeSshHost(StrippedAgain(t))
           case None => true
           case Some(h) => FirstLabel(h) == FirstLabel(Lower(StrippedAgain(t))))
  }

  lemma {:induction false} TrimStartStartsKept(s: string, drop: char -> bool)
    ensures TrimStart(s, drop) == "" || !drop(TrimStart(s, drop)[0])
    decreases s
  {
    if s != "" && drop(s[0]) {
      TrimStartStartsKept(s[1..], drop);
    }
  }

  lemma {:induction false} TrimEndEndsKept(s: string, drop: char -> bool)
    ensures TrimEnd(s, drop) == "" || !drop(TrimEnd(s, drop)[|TrimEnd(s, drop)| - 1])
    decreases s
  {
    if s != "" && drop(s[|s| - 1]) {
      TrimEndEndsKept(s[..|s| - 1], drop);
    }
  }

  lemma StrippedEnds(raw: string)
    ensures var t := Stripped(raw); t == "" || (!IsSpace(t[0]) && t[|t| - 1] != '.')
  {
    TrimStartStartsKept(raw, IsSpace);
    TrimEndIsPrefix(TrimStart(raw, IsSpace), IsSpace);
    TrimEndIsPrefix(Trim(raw, IsSpace), IsDot);
    TrimEndEndsKept(Trim(raw, IsSpace), IsDot);
  }

  /** Stripping a lower-cased stripped name can only take blanks and dots off its end. */
  lemma {:induction false} StripLowered(t: string)
    requires t == "" || !IsSpace(t[0])
    ensures Stripped(Lower(t)) == Lower(StrippedAgain(t))
  {
    assert t != "" ==> !IsSpace(LowerChar(t[0]));
    assert TrimStart(Lower(t), IsSpace) == Lower(t);
    TrimEndLower(t, IsSpace);
    TrimEndLower(TrimEnd(t, IsSpace), IsDot);
  }

  lemma {:induction false} NothingToStrip(t: string)
    requires t == "" || (!IsSpace(t[|t| - 1]) && t[|t| - 1] != '.')
    ensures StrippedAgain(t) == t
  {
  }

  lemma {:induction false} FirstLabelOfPrefix(s: string, p: string)
    requires p <= s && '.' in p
    ensures FirstLabel(s) == FirstLabel(p)
    decreases s
  {
    if p[0] != '.' {
      assert p[1..] <= s[1..];
      FirstLabelOfPrefix(s[1..], p[1..]);
    }
  }

  lemma {:induction false} DotSurvivesTrim(t: string)
    requires '.' in t
    ensures '.' in TrimEnd(t, IsSpace)
    decreases t
  {
    if IsSpace(t[|t| - 1]) {
      assert t == t[..|t| - 1] + [t[|t| - 1]];
      DotSurvivesTrim(t[..|t| - 1]);
    }
  }

  /** Blanks and dots at the end do not reach the first label of a name with a dot. */
  lemma FirstLabelStrippedAgain(t: string)
    requires '.' in t
    ensures FirstLabel(StrippedAgain(t)) == FirstLabel(t)
  {
    DotSurvivesTrim(t);
    TrimEndIsPrefix(t, IsSpace);
    FirstLabelOfPrefix(t, TrimEnd(t, IsSpace));
    FirstLabelKeepsDots(TrimEnd(t, IsSpace));
  }

  lemma {:induction false} FirstLabelIsPrefix(name: string)
    ensures FirstLabel(name) <= name
    decreases name
  {
    if name != "" && name[0] != '.' {
      FirstLabelIsPrefix(name[1..]);
    }
  }

  /** A name that is no host name, normalised twice. */
  lemma TwiceNormalized(raw: string)
    requires NormalizeSshHost(Stripped(raw)).None?
    ensures var u := StrippedAgain(Stripped(raw));
      NormalizePeerHostname(NormalizePeerHostname(raw)) ==
        match NormalizeSshHost(u) case Some(h) => h case None => Lower(u)
  {
    var t := Stripped(raw);
    StrippedEnds(raw);
    StripLowered(t);
    NormalizeBlindToCase(StrippedAgain(t));
    LowerTwice(StrippedAgain(t));
  }

  /** Without a dot the first label is the whole name, and a second stripping takes its blanks. */
  lemma {:induction false} BlankEndIsLost(t: string, second: string)
    requires t != "" && IsSpace(t[|t| - 1]) && '.' !in t
    requires second == Lower(StrippedAgain(t)) || Canonical(second)
    ensures FirstLabel(second) != FirstLabel(Lower(t))
  {
    assert forall i :: 0 <= i < |t| ==> LowerChar(t[i]) != '.';
    NoPieces(Lower(t), '.');
    FirstLabelIsPrefix(second);
    if Canonical(second) {
      assert !HostChar(LowerChar(t[|t| - 1]));
    } else {
      TrimEndIsPrefix(t[..|t| - 1], IsSpace);
      TrimEndIsPrefix(TrimEnd(t, IsSpace), IsDot);
    }
  }

  /** The first label of a normalised name outlives a second normalisation exactly when `LabelSurvives`. */
  lemma LabelSurvivesExactly(raw: string)
    ensures KeyLabel(NormalizePeerHostname(raw)) == KeyLabel(raw) <==> LabelSurvives(raw)
  {
    var t := Stripped(raw);
    match NormalizeSshHost(t) {
      case Some(h) =>
        NormalizedIsCanonical(t);
        CanonicalKeyLabel(h);
      case None =>
        StrippedEnds(raw);
        TwiceNormalized(raw);
        if t == "" || !IsSpace(t[|t| - 1]) {
          NothingToStrip(t);
        } else if '.' in t {
          FirstLabelStrippedAgain(t);
          BeforeFirstLower(t, '.');
          BeforeFirstLower(StrippedAgain(t), '.');
        } else {
          NormalizedIsCanonical(StrippedAgain(t));
          BlankEndIsLost(t, NormalizePeerHostname(NormalizePeerHostname(raw)));
        }
    }
  }

  /** Blanks around a name and dots at its end make no difference. */
  lemma {:induction false} PeerNamePadded(before: string, name: string, dots: string, after: string)
    requires AllBlank(before) && AllBlank(after) && forall i :: 0 <= i < |dots| ==> dots[i] == '.'
    requires name != "" && !IsSpace(name[0]) && !IsSpace(name[|name| - 1]) && name[|name| - 1] != '.'
    ensures Stripped(before + (name + dots) + after) == name
    ensures NormalizePeerHostname(before + (name + dots) + after) ==
      match NormalizeSshHost(name) case Some(h) => h case None => Lower(name)
  {
    var core := name + dots;
    assert core[0] == name[0] && (dots != "" ==> core[|core| - 1] == '.') && (dots == "" ==> core == name);
    BlanksAround(before, core, after);
    TrimEndSkips(name, dots, IsDot);
  }

  /** Neither does letter case. */
  lemma {:induction false} PeerNameBlindToCase(raw: string)
    ensures NormalizePeerHostname(Lower(raw)) == NormalizePeerHostname(raw)
  {
    TrimLower(raw, IsSpace);
    TrimEndLower(Trim(raw, IsSpace), IsDot);
    NormalizeBlindToCase(Stripped(raw));
    LowerTwice(Stripped(raw));
  }

  lemma {:induction false} LabelOfLong(short: string, domain: string)
    requires '.' !in short
    ensures FirstLabel(Lower(short)) == Lower(short) == FirstLabel(Lower(short + ['.'] + domain))
  {
    BeforeFirstOf(short, '.', domain);
    NoPieces(short, '.');
    BeforeFirstLower(short, '.');
    BeforeFirstLower(short + ['.'] + domain, '.');
  }

  predicate PlainName(name: string) {
    name != "" && name[|name| - 1] != '.' && forall i :: 0 <= i < |name| ==> HostChar(LowerChar(name[i]))
  }

  /** The short and the long form of a host name go by one label, in whatever case and with dots at the end. */
  lemma {:induction false} ShortAndLongForm(short: string, domain: string, dots: string)
    requires PlainName(short) && '.' !in short && PlainName(domain)
    requires forall i :: 0 <= i < |dots| ==> dots[i] == '.'
    ensures KeyLabel(short) == Lower(short) == KeyLabel(short + ['.'] + domain + dots)
  {
    LongIsPlain(short, domain);
    PlainLabel(short, "");
    assert short + "" == short;
    PlainLabel(short + ['.'] + domain, dots);
    LabelOfLong(short, domain);
  }

  lemma {:induction false} LongIsPlain(short: string, domain: string)
    requires PlainName(short) && PlainName(domain)
    ensures PlainName(short + ['.'] + domain)
  {
    var long := short + ['.'] + domain;
    assert forall i :: 0 <= i < |long| ==> long[i] == '.' || long[i] in short || long[i] in domain;
    assert long[|long| - 1] == domain[|domain| - 1];
  }

  lemma {:induction false} PlainLabel(name: string, dots: string)
    requires PlainName(name) && forall i :: 0 <= i < |dots| ==> dots[i] == '.'
    ensures KeyLabel(name + dots) == FirstLabel(Lower(name))
  {
    PlainPeerName(name, dots);
  }

  /** A host name that does not end in a dot is normalised to its lower case, dots at the end or not. */
  lemma {:induction false} PlainPeerName(name: string, dots: string)
    requires PlainName(name) && forall i :: 0 <= i < |dots| ==> dots[i] == '.'
    ensures NormalizePeerHostname(name + dots) == Lower(name)
  {
    assert !IsSpace(name[0]) && !IsSpace(name[|name| - 1]);
    PeerNamePadded("", name, dots, "");
    assert "" + (name + dots) + "" == name + dots;
    NormalizeUndecorates("", None, "", name, "", None, "");
    assert "" + name + "" == name;
  }

  // ----- Filing inbound peers ----------------------------------------------------------------

  ghost predicate Matches(known: seq<string>, reverseName: string) {
    exists i :: 0 <= i < |known| && KeyLabel(known[i]) == KeyLabel(reverseName)
  }

  ghost predicate DistinctLabels(known: seq<string>) {
    forall i, j :: 0 <= i < j < |known| ==> KeyLabel(known[i]) != KeyLabel(known[j])
  }

  /** The known keys once an inbound peer with that reverse DNS name has been filed. */
  ghost function Filed(known: seq<string>, reverseName: string): seq<string> {
    var key := NormalizePeerHostname(reverseName);
    if Matches(known, reverseName) || key in known then known else known + [key]
  }

  lemma BlankAtEndIgnored(n: string)
    ensures NormalizePeerHostname(n + " ") == NormalizePeerHostname(n)
  {
    TrimBlank(n);
    TrimEndSkips(TrimStart(n, IsSpace), " ", IsSpace);
  }

  lemma {:induction false} TrimBlank(n: string)
    ensures Trim(n + " ", IsSpace) == Trim(n, IsSpace)
    decreases n
  {
    if n != "" && IsSpace(n[0]) {
      assert (n + " ")[1..] == n[1..] + " ";
      TrimBlank(n[1..]);
    } else if n == "" {
      assert n + " " == " ";
      assert " "[1..] == "";
    } else {
      TrimEndSkips(n, " ", IsSpace);
    }
  }

  lemma {:induction false} SurvivorKeepsLabelsApart(known: seq<string>, reverseName: string)
    requires DistinctLabels(known) && LabelSurvives(reverseName)
    ensures DistinctLabels(Filed(known, reverseName))
  {
    LabelSurvivesExactly(reverseName);
    var n := NormalizePeerHostname(reverseName);
    if Filed(known, reverseName) != known {
      AddedKey(known, n);
    }
  }

  lemma {:induction false} AddedKey(known: seq<string>, n: string)
    ensures DistinctLabels(known + [n]) <==>
      DistinctLabels(known) && forall i :: 0 <= i < |known| ==> KeyLabel(known[i]) != KeyLabel(n)
  {
    var after := known + [n];
    assert forall i :: 0 <= i < |known| ==> after[i] == known[i];
    assert after[|known|] == n;
    if DistinctLabels(after) {
      forall i, j | 0 <= i < j < |known|
        ensures KeyLabel(known[i]) != KeyLabel(known[j])
      {
        assert KeyLabel(after[i]) != KeyLabel(after[j]);
      }
    }
  }

  lemma {:induction false} FiledBeside(other: string, reverseName: string)
    requires other != NormalizePeerHostname(reverseName) && KeyLabel(other) != KeyLabel(reverseName)
    ensures Filed([other], reverseName) == [other] + [NormalizePeerHostname(reverseName)]
  {
  }

  lemma {:induction false} SecondKey(other: string, reverseName: string)
    requires other != NormalizePeerHostname(reverseName)
    requires KeyLabel(other) == KeyLabel(NormalizePeerHostname(reverseName)) != KeyLabel(reverseName)
    ensures DistinctLabels([other]) && !DistinctLabels(Filed([other], reverseName))
  {
    FiledBeside(other, reverseName);
    AddedKey([other], NormalizePeerHostname(reverseName));
    assert [other][0] == other;
  }

  lemma {:induction false} LostLabelMeetsAnother(reverseName: string)
    requires !LabelSurvives(reverseName)
    ensures var known := [NormalizePeerHostname(reverseName) + " "];
      DistinctLabels(known) && !DistinctLabels(Filed(known, reverseName))
  {
    var n := NormalizePeerHostname(reverseName);
    LabelSurvivesExactly(reverseName);
    BlankAtEndIgnored(n);
    assert |n + " "| != |n|;
    SecondKey(n + " ", reverseName);
  }

  /**
   Filing under the key found for a reverse DNS name keeps the first labels of all
   known keys apart, whatever keys are known, exactly when that name's label survives.
   */
  lemma FilingKeepsLabelsApart(reverseName: string)
    ensures LabelSurvives(reverseName) <==>
      forall known :: DistinctLabels(known) ==> DistinctLabels(Filed(known, reverseName))
  {
    if LabelSurvives(reverseName) {
      forall known | DistinctLabels(known)
        ensures DistinctLabels(Filed(known, reverseName))
      {
        SurvivorKeepsLabelsApart(known, reverseName);
      }
    } else {
      LostLabelMeetsAnother(reverseName);
    }
  }

  lemma UndecoratedName(s: string)
    requires s != "" && forall i :: 0 <= i < |s| ==> !IsQuote(s[i]) && s[i] !in "@[:"
    ensures NormalizeSshHost(s) ==
      if Canonical(Lower(Trim(s, IsSpace))) then Some(Lower(Trim(s, IsSpace))) else None
  {
    NothingToTrim(s, IsQuote);
    NoPieces(s, '@');
    NoPieces(s, ':');
  }

  lemma {:induction false} Underscored()
    ensures Trim("a_ ", IsSpace) == "a_" && Stripped("a_ .") == "a_ " && Stripped("a_ ") == Stripped("a_") == "a_"
    ensures FirstLabel("a_ ") == "a_ " && FirstLabel("a_") == "a_"
    ensures Lower("a_ ") == "a_ " && Lower("a_") == "a_"
  {
    NothingToTrim("a_ .", IsSpace);
    NothingToTrim("a_", IsSpace);
    assert "a_ ."[..3] == "a_ " && "a_ "[..2] == "a_";
    assert TrimStart("a_ ", IsSpace) == "a_ ";
    NoPieces("a_ ", '.');
    NoPieces("a_", '.');
  }

  /** Such a name exists: filed beside "a_" it becomes a second key with the label "a_". */
  lemma {:induction false} LabelLost()
    ensures !LabelSurvives("a_ .")
    ensures DistinctLabels(["a_"]) && Filed(["a_"], "a_ .") == ["a_", "a_ "]
    ensures KeyLabel("a_") == KeyLabel("a_ ") == "a_"
  {
    Underscored();
    assert !HostChar('_') && "a_"[1] == '_';
    assert !Canonical("a_");
    NothingToTrim("a_", IsSpace);
    UndecoratedName("a_");
    UndecoratedName("a_ ");
    assert KeyLabel("a_ .") == "a_ ";
    LabelSurvivesExactly("a_ .");
    assert |"a_ "| != |"a_"|;
    FiledBeside("a_", "a_ .");
  }

  /**
   Registering an inbound peer under the key found for its reverse DNS name. A known
   key with its label is reused; a new key has the label of the name if that survives,
   and then no machine gets a second key by another form of its name.
   */
  method RegisterInboundKey(known: seq<string>, reverseName: string) returns (key: string, after: seq<string>)
    ensures key in after && after == Filed(known, reverseName)
    ensures Matches(known, reverseName) ==> KeyLabel(key) == KeyLabel(reverseName)
    ensures !Matches(known, reverseName) ==>
      (KeyLabel(key) == KeyLabel(reverseName) <==> LabelSurvives(reverseName))
    ensures DistinctLabels(known) && LabelSurvives(reverseName) ==> DistinctLabels(after)
  {
    key := MatchInboundKey(known, reverseName);
    LabelSurvivesExactly(reverseName);
    if DistinctLabels(known) && LabelSurvives(reverseName) {
      SurvivorKeepsLabelsApart(known, reverseName);
    }
    after := if key in known then known else known + [key];
  }
}
