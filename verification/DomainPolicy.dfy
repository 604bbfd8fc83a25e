/** Domain normalisation and host matching, on ASCII host names. */
module DomainPolicy {
  import opened Common

  function LowerChar(c: char): (r: char)
    ensures 'A' <= c <= 'Z' ==> 'a' <= r <= 'z' && r as int - 'a' as int == c as int - 'A' as int
    ensures !('A' <= c <= 'Z') ==> r == c
  {
    if 'A' <= c <= 'Z' then (c as int + 32) as char else c
  }

  function Lower(s: string): (r: string)
    ensures |r| == |s| && forall i | 0 <= i < |s| :: r[i] == LowerChar(s[i])
  {
    seq(|s|, i requires 0 <= i < |s| => LowerChar(s[i]))
  }

  predicate IsDigit(c: char) {
    '0' <= c <= '9'
  }

  function TrimLeft(s: string): string {
    if s != [] && IsSpace(s[0]) then TrimLeft(s[1..]) else s
  }

  function TrimRight(s: string): string {
    if s != [] && IsSpace(s[|s| - 1]) then TrimRight(s[..|s| - 1]) else s
  }

  function DropDot(s: string): string {
    if s != [] && s[|s| - 1] == '.' then s[..|s| - 1] else s
  }

  function DigitTail(s: string): (n: nat)
    ensures n <= |s|
  {
    if s != [] && IsDigit(s[|s| - 1]) then 1 + DigitTail(s[..|s| - 1]) else 0
  }

  /** Strips a trailing colon and port number. */
  function DropPort(s: string): string {
    var n := DigitTail(s);
    if 0 < n < |s| && s[|s| - n - 1] == ':' then s[..|s| - n - 1] else s
  }

  function NormalizeOneDomain(raw: string): string {
    DropPort(DropDot(Lower(TrimRight(TrimLeft(raw)))))
  }

  predicate StartsWith(s: string, prefix: string) {
    |s| >= |prefix| && s[..|prefix|] == prefix
  }

  predicate EndsWith(s: string, suffix: string) {
    |s| >= |suffix| && s[|s| - |suffix|..] == suffix
  }

  function Dots(s: string): nat {
    if s == [] then 0 else (if s[0] == '.' then 1 else 0) + Dots(s[1..])
  }

  /** The twin that a host also binds: apex for `www.`, `www.` for a two-label apex. */
  function Twin(d: string): Option<string> {
    if '*' in d then None
    else if StartsWith(d, "www.") then Some(d[4..])
    else if Dots(d) == 1 then Some("www." + d)
    else None
  }

  function AddPair(out: seq<string>, d: string, twin: Option<string>): seq<string> {
    match twin
    case None => AddNew(out, d)
    case Some(t) => AddNew(AddNew(out, d), t)
  }

  function AddHost(out: seq<string>, raw: string): seq<string> {
    var d := NormalizeOneDomain(raw);
    if d == "" then out else AddPair(out, d, Twin(d))
  }

  function AddHosts(out: seq<string>, domains: seq<string>): seq<string>
    decreases |domains|
  {
    if domains == [] then out else AddHosts(AddHost(out, domains[0]), domains[1..])
  }

  function Normalized(domains: seq<string>): seq<string> {
    AddHosts([], domains)
  }

  method NormalizeDomains(domains: seq<string>) returns (out: seq<string>)
    ensures out == Normalized(domains)
  {
    hide NormalizeOneDomain;
    out := [];
    for n := 0 to |domains|
      invariant AddHosts(out, domains[n..]) == Normalized(domains)
    {
      assert domains[n..][0] == domains[n] && domains[n..][1..] == domains[n + 1..];
      ghost var before := out;
      var d := NormalizeOneDomain(domains[n]);
      if d == "" {
        continue;
      }
      out := AddNew(out, d);
      if !StartsWith(d, "*.") && '*' !in d {
        if StartsWith(d, "www.") {
          out := AddNew(out, d[4..]);
        } else if Dots(d) == 1 {
          out := AddNew(out, "www." + d);
        }
      } else {
        assert StartsWith(d, "*.") ==> d[0] == d[..2][0];
      }
      assert out == AddHost(before, domains[n]);
    }
  }

  /** At issue time: no bare top level, and no suffix on which many customers share one host. */
  predicate Acceptable(domains: seq<string>, publicSuffixes: set<string>) {
    forall d | d in domains ::
      var base := if StartsWith(d, "*.") then d[2..] else d;
      Dots(base) >= 1 && base !in publicSuffixes
  }

  /** Distinct sites: the two twins of one apex count once. */
  function Sites(domains: seq<string>): set<string> {
    set d | d in domains :: if StartsWith(d, "www.") then d[4..] else d
  }

  predicate HostMatchesPattern(host: string, pattern: string) {
    var h, pat := Lower(host), Lower(pattern);
    if !StartsWith(pat, "*.") then h == pat
    else
      var base := pat[2..];
      if base == "" || '*' in base then false
      else if h == base then true
      else BelowBase(h, base)
  }

  /** The part in front of `.base` is one non-empty label. */
  predicate BelowBase(h: string, base: string) {
    if !EndsWith(h, "." + base) then false
    else
      var sub := h[..|h| - |base| - 1];
      |sub| > 0 && '.' !in sub
  }

  predicate HostAllowed(host: string, domains: seq<string>) {
    domains == [] || exists d | d in domains :: HostMatchesPattern(host, d)
  }

  // ---- Matching ------------------------------------------------------------

  /** One dot-free, non-empty label in front of `base`. */
  ghost predicate OneLabelBelow(h: string, base: string) {
    exists sub: string :: sub != "" && '.' !in sub && h == sub + "." + base
  }

  lemma SplitBelow(h: string, base: string, sub: string)
    requires h == sub + "." + base
    ensures EndsWith(h, "." + base) && h[..|h| - |base| - 1] == sub
  {
    assert h == sub + ("." + base);
    assert h[|sub|..] == "." + base;
  }

  lemma JoinBelow(h: string, base: string)
    requires EndsWith(h, "." + base)
    ensures h == h[..|h| - |base| - 1] + "." + base
  {
    assert h == h[..|h| - |base| - 1] + ("." + base);
  }

  lemma BelowBaseIsOneLabel(h: string, base: string)
    ensures BelowBase(h, base) <==> OneLabelBelow(h, base)
  {
    hide EndsWith;
    if BelowBase(h, base) {
      JoinBelow(h, base);
    }
    if sub: string :| sub != "" && '.' !in sub && h == sub + "." + base {
      SplitBelow(h, base, sub);
    }
  }

  lemma LowerOfWildcard(base: string)
    requires '*' !in base
    ensures var pat := Lower("*." + base);
            StartsWith(pat, "*.") && pat[2..] == Lower(base) && '*' !in Lower(base)
  {
    var b := Lower(base);
    assert Lower("*." + base) == "*." + b && ("*." + b)[2..] == b;
    assert forall i | 0 <= i < |b| :: b[i] == '*' ==> base[i] in base;
  }

  /** A wildcard covers its apex and exactly one level below it, whatever the case. */
  lemma WildcardCoversOneLevel(host: string, base: string)
    requires base != "" && '*' !in base
    ensures HostMatchesPattern(host, "*." + base) <==>
            Lower(host) == Lower(base) || OneLabelBelow(Lower(host), Lower(base))
  {
    hide BelowBase, OneLabelBelow;
    LowerOfWildcard(base);
    BelowBaseIsOneLabel(Lower(host), Lower(base));
  }

  /** The pattern `*.base` of a proper base. */
  ghost predicate Wildcard(pattern: string, base: string) {
    pattern == "*." + base && base != "" && '*' !in base
  }

  /** A host matches a pattern exactly by being its very name, or by a wildcard that reaches one label down. */
  lemma HostMatchesExactly(host: string, pattern: string)
    ensures HostMatchesPattern(host, pattern) <==>
            || (!StartsWith(pattern, "*.") && Lower(host) == Lower(pattern))
            || (exists base :: Wildcard(pattern, base)
                  && (Lower(host) == Lower(base) || OneLabelBelow(Lower(host), Lower(base))))
  {
    hide BelowBase, OneLabelBelow;
    LowerKeepsPrefix(pattern);
    if StartsWith(pattern, "*.") {
      var base := pattern[2..];
      assert pattern == "*." + base;
      assert forall other :: pattern == "*." + other ==> other == pattern[2..];
      LowerOfTail(pattern);
      if base != "" && '*' !in base {
        assert Wildcard(pattern, base);
        WildcardCoversOneLevel(host, base);
      }
    } else {
      assert forall other :: ("*." + other)[..2] == "*.";
    }
  }

  lemma LowerKeepsPrefix(pattern: string)
    ensures StartsWith(Lower(pattern), "*.") <==> StartsWith(pattern, "*.")
  {
    if |pattern| >= 2 {
      assert Lower(pattern)[..2] == [LowerChar(pattern[0]), LowerChar(pattern[1])];
      assert pattern[..2] == [pattern[0], pattern[1]];
    }
  }

  lemma LowerOfTail(pattern: string)
    requires StartsWith(pattern, "*.")
    ensures StartsWith(Lower(pattern), "*.")
    ensures Lower(pattern)[2..] == Lower(pattern[2..])
    ensures '*' in Lower(pattern)[2..] <==> '*' in pattern[2..]
  {
    LowerKeepsPrefix(pattern);
    var low, tail := Lower(pattern)[2..], pattern[2..];
    assert forall i | 0 <= i < |tail| :: low[i] == LowerChar(tail[i]);
    forall i | 0 <= i < |tail| ensures low[i] == '*' <==> tail[i] == '*' {}
  }

  /**
   A licence bound to hosts admits exactly those it names, and the apex and one level below each of its
   wildcards; one bound to none admits every host.
   */
  lemma HostAllowedExactly(host: string, domains: seq<string>)
    ensures HostAllowed(host, domains) <==>
            || domains == []
            || (exists d | d in domains :: !StartsWith(d, "*.") && Lower(host) == Lower(d))
            || (exists d, base | d in domains ::
                  Wildcard(d, base) && (Lower(host) == Lower(base) || OneLabelBelow(Lower(host), Lower(base))))
  {
    forall d | d in domains
      ensures HostMatchesPattern(host, d) <==>
              || (!StartsWith(d, "*.") && Lower(host) == Lower(d))
              || (exists base :: Wildcard(d, base)
                    && (Lower(host) == Lower(base) || OneLabelBelow(Lower(host), Lower(base)))) {
      HostMatchesExactly(host, d);
    }
    hide HostMatchesPattern, Lower, OneLabelBelow, StartsWith;
  }

  lemma {:induction false} SomeDot(s: string)
    ensures Dots(s) >= 1 <==> '.' in s
  {
    if s != [] {
      SomeDot(s[1..]);
    }
  }

  /**
   A list is accepted exactly when neither a name nor the base of a wildcard in it is a bare top level or a
   suffix on which many customers share one host.
   */
  lemma OverBroadIsRefused(domains: seq<string>, publicSuffixes: set<string>)
    ensures Acceptable(domains, publicSuffixes) <==>
            forall d, base | d in domains && (d == "*." + base || (d == base && !StartsWith(d, "*."))) ::
              '.' in base && base !in publicSuffixes
  {
    forall d | d in domains
      ensures var base := if StartsWith(d, "*.") then d[2..] else d;
              && (Dots(base) >= 1 <==> '.' in base) && (StartsWith(d, "*.") ==> d == "*." + base) {
      SomeDot(if StartsWith(d, "*.") then d[2..] else d);
    }
    assert forall base: string :: StartsWith("*." + base, "*.") && ("*." + base)[2..] == base;
  }

  ghost predicate AllBlank(s: string) {
    forall c | c in s :: IsSpace(c)
  }

  lemma {:induction false} TrimLeftSplits(s: string) returns (before: string)
    ensures s == before + TrimLeft(s) && AllBlank(before)
    ensures TrimLeft(s) == "" || !IsSpace(TrimLeft(s)[0])
  {
    before := "";
    if s != [] && IsSpace(s[0]) {
      var rest := TrimLeftSplits(s[1..]);
      before := [s[0]] + rest;
      assert s == [s[0]] + s[1..];
    }
  }

  lemma {:induction false} TrimRightSplits(s: string) returns (after: string)
    ensures s == TrimRight(s) + after && AllBlank(after)
    ensures TrimRight(s) == "" || !IsSpace(TrimRight(s)[|TrimRight(s)| - 1])
  {
    after := "";
    if s != [] && IsSpace(s[|s| - 1]) {
      var rest := TrimRightSplits(s[..|s| - 1]);
      after := rest + [s[|s| - 1]];
      assert s == s[..|s| - 1] + [s[|s| - 1]];
    }
  }

  /** Trimming takes the blanks off both ends and nothing else. */
  lemma TrimStripsBlanks(s: string)
    ensures var t := TrimRight(TrimLeft(s));
            && (exists before, after :: s == before + t + after && AllBlank(before) && AllBlank(after))
            && (t == "" || (!IsSpace(t[0]) && !IsSpace(t[|t| - 1])))
  {
    hide TrimLeft, TrimRight, IsSpace;
    var t := TrimRight(TrimLeft(s));
    var before := TrimLeftSplits(s);
    var after := TrimRightSplits(TrimLeft(s));
    assert s == before + t + after;
    assert t != "" ==> t[0] == TrimLeft(s)[0];
  }

  // ---- Normal forms --------------------------------------------------------

  /** The host has nothing more to strip at its end: no blank, no dot, no port. */
  predicate EndSettled(d: string) {
    d == "" || (!IsSpace(d[|d| - 1]) && d[|d| - 1] != '.' && DropPort(d) == d)
  }

  /** What the cleanup strips at the end of a host. */
  predicate IsJunk(c: char) {
    IsSpace(c) || c == '.' || c == ':' || IsDigit(c)
  }

  /** `r` is `d` without some junk at its end. */
  ghost predicate Stripped(r: string, d: string) {
    r <= d && forall i | |r| <= i < |d| :: IsJunk(d[i])
  }

  lemma {:induction false} TrimRightStrips(s: string)
    ensures Stripped(TrimRight(s), s) && (TrimRight(s) == s <==> s == "" || !IsSpace(s[|s| - 1]))
  {
    if s != [] && IsSpace(s[|s| - 1]) {
      TrimRightStrips(s[..|s| - 1]);
    }
  }

  lemma {:induction false} DigitTailIsDigits(s: string)
    ensures forall i | |s| - DigitTail(s) <= i < |s| :: IsDigit(s[i])
  {
    if s != [] && IsDigit(s[|s| - 1]) {
      DigitTailIsDigits(s[..|s| - 1]);
    }
  }

  lemma DropsStrip(s: string)
    ensures Stripped(DropPort(DropDot(s)), s)
    ensures DropPort(DropDot(s)) == s <==> s == "" || (s[|s| - 1] != '.' && DropPort(s) == s)
  {
    DigitTailIsDigits(DropDot(s));
  }

  lemma {:induction false} TrimLeftStarts(s: string)
    ensures TrimLeft(s) == "" || !IsSpace(TrimLeft(s)[0])
  {
    if s != [] && IsSpace(s[0]) {
      TrimLeftStarts(s[1..]);
    }
  }

  /** What one pass leaves is in lower case and does not begin with a blank. */
  lemma OnePassShape(raw: string)
    ensures var p := NormalizeOneDomain(raw); Lower(p) == p && (p == "" || !IsSpace(p[0]))
  {
    var t := TrimRight(TrimLeft(raw));
    TrimLeftStarts(raw);
    TrimRightStrips(TrimLeft(raw));
    assert t != "" ==> t[0] == TrimLeft(raw)[0];
  }

  /** A second pass only strips the end, and strips nothing exactly where the end is settled. */
  lemma SecondPassStrips(d: string)
    requires Lower(d) == d && (d == "" || !IsSpace(d[0]))
    ensures Stripped(NormalizeOneDomain(d), d)
    ensures NormalizeOneDomain(d) == d <==> EndSettled(d)
  {
    hide NormalizeOneDomain, Lower, TrimRight, DropPort, DropDot, IsJunk, IsSpace;
    var t := TrimRight(d);
    CleanupOfTrimmed(d, t);
    TrimRightStrips(d);
    DropsStrip(t);
  }

  lemma CleanupOfTrimmed(d: string, t: string)
    requires Lower(d) == d && (d == "" || !IsSpace(d[0])) && t == TrimRight(d)
    ensures NormalizeOneDomain(d) == DropPort(DropDot(t))
  {
    hide TrimRight, DropPort, DropDot, IsSpace;
    TrimRightStrips(d);
    assert Lower(t) == t;
  }

  /** One pass settles a host exactly when what it leaves does not end in a blank, a dot or a port. */
  lemma OnePassSettlesExactly(raw: string)
    ensures NormalizeOneDomain(NormalizeOneDomain(raw)) == NormalizeOneDomain(raw)
            <==> EndSettled(NormalizeOneDomain(raw))
  {
    hide NormalizeOneDomain, EndSettled;
    OnePassShape(raw);
    SecondPassStrips(NormalizeOneDomain(raw));
  }

  /** A host the cleanup leaves alone. */
  predicate SettledHost(d: string) {
    d != "" && Lower(d) == d && !IsSpace(d[0]) && EndSettled(d)
  }

  lemma SettledHostsAreFixed(d: string)
    ensures SettledHost(d) <==> d != "" && NormalizeOneDomain(d) == d
  {
    hide NormalizeOneDomain, EndSettled;
    OnePassShape(d);
    if Lower(d) == d && (d == "" || !IsSpace(d[0])) {
      SecondPassStrips(d);
    }
  }

  /** A host the one-pass cleanup leaves alone, with no blank inside. */
  predicate CleanHost(d: string) {
    && d != ""
    && (forall c | c in d :: !IsSpace(c) && LowerChar(c) == c)
    && d[|d| - 1] != '.'
    && DropPort(d) == d
  }

  lemma CleanHostIsFixed(d: string)
    requires CleanHost(d)
    ensures d != "" && NormalizeOneDomain(d) == d && SettledHost(d)
  {
    assert d[0] in d && d[|d| - 1] in d;
    assert Lower(d) == d;
  }

  lemma {:induction false} DigitTailOfSuffix(head: string, d: string)
    requires head != "" && !IsDigit(head[|head| - 1])
    ensures DigitTail(head + d) == DigitTail(d)
  {
    if d == "" {
      assert head + d == head;
    } else {
      DigitTailOfSuffix(head, d[..|d| - 1]);
      assert (head + d)[..|head + d| - 1] == head + d[..|d| - 1];
    }
  }

  ghost predicate AllDigits(s: string) {
    s != "" && forall i | 0 <= i < |s| :: s[i] in "0123456789"
  }

  lemma DigitExactly(c: char)
    ensures IsDigit(c) <==> c in "0123456789"
  {
    if IsDigit(c) {
      assert "0123456789"[c as int - '0' as int] == c;
    }
  }

  lemma {:induction false} DigitsOnly(s: string)
    requires forall i | 0 <= i < |s| :: IsDigit(s[i])
    ensures DigitTail(s) == |s|
  {
    if s != "" {
      DigitsOnly(s[..|s| - 1]);
    }
  }

  /** A port is a colon and decimal digits at the end; it is taken off whole, and nothing else is. */
  lemma PortIsDroppedExactly(s: string)
    ensures forall head, port | s == head + ":" + port && AllDigits(port) :: DropPort(s) == head
    ensures (forall head, port :: s == head + ":" + port ==> !AllDigits(port)) ==> DropPort(s) == s
  {
    forall head: string, port | s == head + ":" + port && AllDigits(port) ensures DropPort(s) == head {
      forall i | 0 <= i < |port| ensures IsDigit(port[i]) {
        DigitExactly(port[i]);
      }
      DigitsOnly(port);
      DigitTailOfSuffix(head + ":", port);
      assert s[..|s| - |port| - 1] == head;
    }
    if DropPort(s) != s {
      var n := DigitTail(s);
      var head, port := s[..|s| - n - 1], s[|s| - n..];
      DigitTailIsDigits(s);
      forall i | 0 <= i < |port| ensures port[i] in "0123456789" {
        DigitExactly(port[i]);
      }
      assert s == head + ":" + port && AllDigits(port);
    }
  }

  lemma WwwKeepsPort(d: string)
    requires d != ""
    ensures DropPort(d) == d <==> DropPort("www." + d) == "www." + d
  {
    var w := "www." + d;
    DigitTailOfSuffix("www.", d);
    var n := DigitTail(d);
    if 0 < n {
      assert w[|w| - n - 1] == (if n < |d| then d[|d| - n - 1] else '.');
    }
  }

  lemma WwwKeepsClean(d: string)
    requires d != ""
    ensures CleanHost(d) <==> CleanHost("www." + d)
  {
    hide DropPort;
    WwwKeepsPort(d);
    assert forall c | c in "www." :: !IsSpace(c) && LowerChar(c) == c;
    assert forall c :: c in "www." + d <==> c in "www." || c in d;
  }

  // Facts about pairing that hold whatever the twin of an element is.

  ghost predicate PairClosed(list: seq<string>, twin: string -> Option<string>) {
    && NoDuplicates(list)
    && forall i | 0 <= i < |list| && twin(list[i]).Some? ::
         twin(list[i]).value in list[..Min(i + 2, |list|)]
  }

  ghost predicate TwinReturns(d: string, twin: string -> Option<string>) {
    twin(d).Some? && twin(twin(d).value).Some? ==> twin(twin(d).value).value == d
  }

  lemma ClosedExtend(out: seq<string>, d: string, twin: string -> Option<string>)
    requires PairClosed(out, twin) && d !in out
    requires twin(d).Some? ==> twin(d).value in out + [d]
    ensures PairClosed(out + [d], twin)
  {
    var all := out + [d];
    forall i | 0 <= i < |all| && twin(all[i]).Some?
      ensures twin(all[i]).value in all[..Min(i + 2, |all|)]
    {
      if i < |out| {
        var j :| 0 <= j < Min(i + 2, |out|) && out[j] == twin(out[i]).value;
        assert all[..Min(i + 2, |all|)][j] == twin(all[i]).value;
      } else {
        assert all[..Min(i + 2, |all|)] == all;
      }
    }
  }

  lemma AddPairKeepsClosed(out: seq<string>, d: string, twin: string -> Option<string>)
    requires PairClosed(out, twin) && TwinReturns(d, twin)
    ensures PairClosed(AddPair(out, d, twin(d)), twin)
  {
    if d in out {
      var i :| 0 <= i < |out| && out[i] == d;
      assert twin(d).Some? ==> twin(d).value in out;
    } else if twin(d).None? || twin(d).value in out + [d] {
      ClosedExtend(out, d, twin);
    } else {
      var t := twin(d).value;
      var all := out + [d] + [t];
      assert AddPair(out, d, twin(d)) == all;
      forall i | 0 <= i < |all| && twin(all[i]).Some?
        ensures twin(all[i]).value in all[..Min(i + 2, |all|)]
      {
        if i < |out| {
          var j :| 0 <= j < Min(i + 2, |out|) && out[j] == twin(out[i]).value;
          assert all[..Min(i + 2, |all|)][j] == twin(all[i]).value;
        } else {
          assert all[..Min(i + 2, |all|)] == all;
          assert all[|out|] == d && all[|out| + 1] == t;
        }
      }
    }
  }

  function AddPairs(out: seq<string>, ds: seq<string>, twin: string -> Option<string>): seq<string>
    decreases |ds|
  {
    if ds == [] then out else AddPairs(AddPair(out, ds[0], twin(ds[0])), ds[1..], twin)
  }

  lemma ClosedStep(list: seq<string>, done: nat, next: nat, t: Option<string>) returns (after: nat)
    requires NoDuplicates(list) && next <= done <= |list| && next < |list|
    requires t.Some? ==> t.value in list[..Min(next + 2, |list|)]
    ensures next + 1 <= after <= |list| && AddPair(list[..done], list[next], t) == list[..after]
  {
    after := if done == next then done + 1 else done;
    AddListed(list, done, next);
    if t.Some? {
      var j :| 0 <= j < Min(next + 2, |list|) && list[j] == t.value;
      AddListed(list, after, j);
      after := if j == after then after + 1 else after;
    }
  }

  lemma {:induction false} ClosedReplays(list: seq<string>, done: nat, next: nat, twin: string -> Option<string>)
    requires PairClosed(list, twin) && next <= done <= |list|
    ensures AddPairs(list[..done], list[next..], twin) == list
    decreases |list| - next
  {
    hide NoDuplicates, AddPair;
    if next < |list| {
      assert list[next..][0] == list[next] && list[next..][1..] == list[next + 1..];
      var after := ClosedStep(list, done, next, twin(list[next]));
      ClosedReplays(list, after, next + 1, twin);
    } else {
      assert list[next..] == [] && list[..done] == list;
    }
  }

  /** Re-adding an element at or before the end of a prefix extends it by at most itself. */
  lemma AddListed(list: seq<string>, done: nat, i: nat)
    requires i <= done <= |list| && i < |list| && NoDuplicates(list)
    ensures AddNew(list[..done], list[i]) == list[..if i == done then done + 1 else done]
  {
  }

  ghost predicate NormalForm(list: seq<string>) {
    PairClosed(list, d => Twin(d)) && forall d | d in list :: SettledHost(d)
  }

  predicate SingleWww(d: string) {
    CleanHost(d) && !(StartsWith(d, "www.www.") && '*' !in d)
  }

  lemma DoubledPrefix(d: string, rest: string)
    requires d == "www." + rest
    ensures StartsWith(d, "www.www.") <==> StartsWith(rest, "www.")
  {
    if |rest| >= 4 {
      assert d[..8] == "www." + rest[..4];
      assert ("www." + rest[..4])[4..] == rest[..4] && "www.www."[4..] == "www.";
    }
  }

  lemma TwinOfTwin(d: string)
    requires SingleWww(d) && Twin(d).Some?
    ensures CleanHost(Twin(d).value)
    ensures Twin(Twin(d).value).Some? ==> Twin(Twin(d).value).value == d
  {
    var twin := Twin(d).value;
    if StartsWith(d, "www.") {
      assert d == "www." + twin;
      WwwKeepsClean(twin);
      DoubledPrefix(d, twin);
    } else {
      WwwKeepsClean(d);
      assert twin[4..] == d;
    }
  }

  lemma {:induction false} AddHostsKeepNormalForm(out: seq<string>, domains: seq<string>)
    requires NormalForm(out) && forall d | d in domains :: SingleWww(d)
    ensures NormalForm(AddHosts(out, domains))
    decreases |domains|
  {
    hide NormalizeOneDomain, CleanHost, Twin;
    if domains != [] {
      var d := domains[0];
      assert SingleWww(d);
      CleanHostIsFixed(d);
      if Twin(d).Some? {
        TwinOfTwin(d);
      }
      AddPairKeepsClosed(out, d, x => Twin(x));
      AddHostsKeepNormalForm(AddHost(out, d), domains[1..]);
    }
  }

  /** On settled hosts the list is built from the twins alone. */
  lemma {:induction false} SettledHostsPairUp(out: seq<string>, domains: seq<string>)
    requires forall d | d in domains :: SettledHost(d)
    ensures AddHosts(out, domains) == AddPairs(out, domains, d => Twin(d))
    decreases |domains|
  {
    hide NormalizeOneDomain, Twin, SettledHost;
    if domains != [] {
      SettledHostsAreFixed(domains[0]);
      SettledHostsPairUp(AddHost(out, domains[0]), domains[1..]);
    }
  }

  /** Normalising a stored list again gives the same list, order included. */
  lemma NormalizationIsIdempotent(domains: seq<string>)
    requires forall d | d in domains :: SingleWww(d)
    ensures NormalForm(Normalized(domains))
    ensures Normalized(Normalized(domains)) == Normalized(domains)
  {
    hide NormalizeOneDomain, CleanHost, Twin;
    AddHostsKeepNormalForm([], domains);
    NormalFormReplaysWhole(Normalized(domains));
  }

  lemma NormalFormReplaysWhole(list: seq<string>)
    requires NormalForm(list)
    ensures Normalized(list) == list
  {
    hide NormalizeOneDomain, CleanHost, Twin;
    SettledHostsPairUp([], list);
    ClosedReplays(list, 0, 0, d => Twin(d));
    assert list[..0] == [] && list[0..] == list;
  }

  // What a second pass does to any list of clean hosts.

  lemma {:induction false} AddPairsExtends(out: seq<string>, ds: seq<string>, twin: string -> Option<string>)
    ensures out <= AddPairs(out, ds, twin)
    ensures NoDuplicates(out) ==> NoDuplicates(AddPairs(out, ds, twin))
    ensures forall x ::
              x in AddPairs(out, ds, twin) <==> x in out || x in ds || exists d :: d in ds && twin(d) == Some(x)
    decreases |ds|
  {
    if ds != [] {
      var next := AddPair(out, ds[0], twin(ds[0]));
      AddPairsExtends(next, ds[1..], twin);
      assert forall x :: x in next <==> x in out || x == ds[0] || twin(ds[0]) == Some(x);
      assert forall d :: d in ds <==> d == ds[0] || d in ds[1..];
      hide AddPair;
    }
  }

  /** Replaying one host leaves a prefix that runs at most one element ahead, with the host's twin in it. */
  lemma ReplayStep(list: seq<string>, done: nat, next: nat, twin: string -> Option<string>) returns (after: nat)
    requires NoDuplicates(list) && next < |list| && next <= done <= |list| && done <= next + 1
    requires AddPair(list[..done], list[next], twin(list[next])) <= list
    ensures next + 1 <= after <= |list| && after <= next + 2
    ensures AddPair(list[..done], list[next], twin(list[next])) == list[..after]
    ensures twin(list[next]).Some? ==> twin(list[next]).value in list[..Min(next + 2, |list|)]
  {
    var d := list[next];
    var mid := if done == next then done + 1 else done;
    AddListed(list, done, next);
    if twin(d).Some? && twin(d).value !in list[..mid] {
      after := mid + 1;
      assert list[..after] == list[..mid] + [twin(d).value];
      assert twin(d).value == list[..Min(next + 2, |list|)][mid];
    } else {
      after := mid;
      assert list[..mid] <= list[..Min(next + 2, |list|)];
    }
  }

  /** A list that replays itself has every twin at hand as soon as its host is placed. */
  lemma {:induction false} ReplayIsClosed(list: seq<string>, done: nat, next: nat, twin: string -> Option<string>)
    requires NoDuplicates(list) && next <= done <= |list| && done <= next + 1
    requires AddPairs(list[..done], list[next..], twin) == list
    ensures forall i | next <= i < |list| && twin(list[i]).Some? :: twin(list[i]).value in list[..Min(i + 2, |list|)]
    decreases |list| - next
  {
    hide NoDuplicates, AddPair;
    if next < |list| {
      assert list[next..][0] == list[next] && list[next..][1..] == list[next + 1..];
      AddPairsExtends(AddPair(list[..done], list[next], twin(list[next])), list[next + 1..], twin);
      var after := ReplayStep(list, done, next, twin);
      ReplayIsClosed(list, after, next + 1, twin);
    }
  }

  lemma TwinIsClean(d: string)
    requires CleanHost(d) && Twin(d).Some?
    ensures CleanHost(Twin(d).value)
  {
    if StartsWith(d, "www.") {
      assert d == "www." + d[4..];
      assert d[4..] == "" ==> d == "www.";
      WwwKeepsClean(d[4..]);
    } else {
      WwwKeepsClean(d);
    }
  }

  lemma CleanHostsStayClean(domains: seq<string>)
    requires forall d | d in domains :: CleanHost(d)
    ensures Normalized(domains) == AddPairs([], domains, d => Twin(d)) && NoDuplicates(Normalized(domains))
    ensures forall d | d in Normalized(domains) :: CleanHost(d)
  {
    hide CleanHost, Twin;
    forall d | d in domains ensures SettledHost(d) {
      CleanHostIsFixed(d);
    }
    SettledHostsPairUp([], domains);
    AddPairsExtends([], domains, d => Twin(d));
    forall d | d in Normalized(domains) ensures CleanHost(d) {
      if d !in domains {
        var from :| from in domains && Twin(from) == Some(d);
        TwinIsClean(from);
      }
    }
  }

  /** A second pass leaves the list of any clean hosts as it is exactly when its twins were all placed in time. */
  lemma SecondPassIsStableExactly(domains: seq<string>)
    requires forall d | d in domains :: CleanHost(d)
    ensures Normalized(Normalized(domains)) == Normalized(domains) <==> PairClosed(Normalized(domains), d => Twin(d))
  {
    hide CleanHost, Twin;
    var list := Normalized(domains);
    CleanHostsStayClean(domains);
    CleanHostsStayClean(list);
    assert list[..0] == [] && list[0..] == list;
    if Normalized(list) == list {
      ReplayIsClosed(list, 0, 0, d => Twin(d));
    } else if PairClosed(list, d => Twin(d)) {
      ClosedReplays(list, 0, 0, d => Twin(d));
    }
  }

  /** The host is given, or is the twin of one that is. */
  predicate Covered(domains: seq<string>, x: string) {
    x in domains || exists d | d in domains :: Twin(d) == Some(x)
  }

  /** A second pass binds no new host exactly when the twin of every twin is covered by the hosts given. */
  lemma SecondPassAddsNothingExactly(domains: seq<string>)
    requires forall d | d in domains :: CleanHost(d)
    ensures (forall x | x in Normalized(Normalized(domains)) :: x in Normalized(domains))
            <==> forall d | d in domains && Twin(d).Some? && Twin(Twin(d).value).Some? ::
                   Covered(domains, Twin(Twin(d).value).value)
  {
    hide CleanHost, Twin;
    var list := Normalized(domains);
    CleanHostsStayClean(domains);
    CleanHostsStayClean(list);
    AddPairsExtends([], domains, d => Twin(d));
    AddPairsExtends([], list, d => Twin(d));
    assert forall x :: x in list <==> Covered(domains, x);
    forall d | d in domains && Twin(d).Some? && Twin(Twin(d).value).Some?
      ensures Twin(Twin(d).value).value in Normalized(list)
    {
      assert Covered(domains, Twin(d).value);
    }
    hide Normalized;
  }

  // When the stored list of any raw hosts is stable.

  /** The raw host puts `x` in the list: it is what the cleanup leaves, or the twin of that. */
  predicate Gives(raw: string, x: string) {
    var d := NormalizeOneDomain(raw);
    d != "" && (x == d || Twin(d) == Some(x))
  }

  lemma {:induction false} AddHostsGive(out: seq<string>, domains: seq<string>)
    ensures forall x :: x in AddHosts(out, domains) <==> x in out || exists raw :: raw in domains && Gives(raw, x)
    ensures NoDuplicates(out) ==> NoDuplicates(AddHosts(out, domains))
    decreases |domains|
  {
    hide NormalizeOneDomain, Twin;
    if domains != [] {
      var next := AddHost(out, domains[0]);
      AddHostsGive(next, domains[1..]);
      assert forall x :: x in next <==> x in out || Gives(domains[0], x);
      assert forall raw :: raw in domains <==> raw == domains[0] || raw in domains[1..];
    }
  }

  /** How much junk ends the string. */
  function JunkTail(s: string): nat {
    if s != [] && IsJunk(s[|s| - 1]) then 1 + JunkTail(s[..|s| - 1]) else 0
  }

  /** The junk at the end of a host, behind a stop in front, so that a twin has just as much. */
  function Junk(d: string): nat {
    JunkTail("w." + d)
  }

  lemma {:induction false} JunkBehindStop(head: string, d: string)
    ensures JunkTail(head + "w." + d) == Junk(d)
    decreases |d|
  {
    var s, t := head + "w." + d, "w." + d;
    if d == "" {
      assert s == head + "w" + "." && s[..|s| - 1] == head + "w" && t[..|t| - 1] == "w";
      assert JunkTail(head + "w") == JunkTail("w") == 0;
    } else {
      JunkBehindStop(head, d[..|d| - 1]);
      assert s[..|s| - 1] == head + "w." + d[..|d| - 1] && t[..|t| - 1] == "w." + d[..|d| - 1];
    }
  }

  lemma TwinsHaveEqualJunk(d: string)
    requires Twin(d).Some?
    ensures Junk(Twin(d).value) == Junk(d)
  {
    if StartsWith(d, "www.") {
      assert "w." + d == "w.ww" + "w." + d[4..];
      JunkBehindStop("w.ww", d[4..]);
    } else {
      assert "w." + ("www." + d) == "w.ww" + "w." + d;
      JunkBehindStop("w.ww", d);
    }
  }

  lemma {:induction false} StrippedHasLessJunk(r: string, d: string)
    requires Stripped(r, d)
    ensures Junk(r) + |d| - |r| == Junk(d)
    decreases |d| - |r|
  {
    if |r| < |d| {
      var front := d[..|d| - 1];
      StrippedHasLessJunk(r, front);
      assert ("w." + d)[..|d| + 1] == "w." + front;
    } else {
      assert r == d;
    }
  }

  lemma LowerBehindWww(d: string)
    ensures Lower("www." + d) == "www." + Lower(d)
  {
  }

  lemma WwwKeepsSettled(d: string)
    requires d != "" && !IsSpace(d[0])
    ensures SettledHost(d) <==> SettledHost("www." + d)
  {
    hide DropPort, Lower;
    var w := "www." + d;
    WwwKeepsPort(d);
    LowerBehindWww(d);
    assert w[|w| - 1] == d[|d| - 1] && w[0] == 'w' && w[4..] == d;
    assert ("www." + Lower(d))[4..] == Lower(d);
  }

  /** A twin that does not begin with a blank is as settled as its host. */
  lemma TwinSettles(d: string)
    requires SettledHost(d) && Twin(d).Some? && (Twin(d).value == "" || !IsSpace(Twin(d).value[0]))
    ensures SettledHost(Twin(d).value)
  {
    hide DropPort, Lower, IsSpace;
    if StartsWith(d, "www.") {
      assert d == "www." + d[4..] && d[3] == '.' != d[|d| - 1];
      WwwKeepsSettled(d[4..]);
    } else {
      WwwKeepsSettled(d);
    }
  }

  ghost predicate NoneStartsBlank(list: seq<string>) {
    forall d | d in list :: d == "" || !IsSpace(d[0])
  }

  lemma TwinIsLower(d: string)
    requires Lower(d) == d && Twin(d).Some?
    ensures Lower(Twin(d).value) == Twin(d).value
  {
    hide Lower;
    if StartsWith(d, "www.") {
      assert d == "www." + d[4..];
      LowerBehindWww(d[4..]);
      assert ("www." + Lower(d[4..]))[4..] == Lower(d[4..]);
    } else {
      LowerBehindWww(d);
    }
  }

  lemma StoredHostsAreLower(domains: seq<string>, x: string)
    requires x in Normalized(domains)
    ensures Lower(x) == x
  {
    hide NormalizeOneDomain, AddHosts, Twin, Lower;
    AddHostsGive([], domains);
    var raw :| raw in domains && Gives(raw, x);
    OnePassShape(raw);
    if x != NormalizeOneDomain(raw) {
      TwinIsLower(NormalizeOneDomain(raw));
    }
  }

  /** In a list that replays itself, a host that is not settled comes from another with more junk at its end. */
  lemma UnsettledNeedsMoreJunk(list: seq<string>, u: string) returns (e: string)
    requires Normalized(list) == list && NoneStartsBlank(list)
    requires u in list && !SettledHost(u)
    ensures e in list && !SettledHost(e) && Junk(e) > Junk(u)
  {
    hide NormalizeOneDomain, Twin, SettledHost, Junk, AddHosts;
    AddHostsGive([], list);
    e :| e in list && Gives(e, u);
    var d := NormalizeOneDomain(e);
    assert Gives(e, d);
    SettledHostsAreFixed(e);
    if d == e && u != d {
      assert SettledHost(e);
      TwinSettles(d);
    }
    StoredHostsAreLower(list, e);
    SecondPassStrips(e);
    StrippedHasLessJunk(d, e);
    if u != d {
      TwinsHaveEqualJunk(d);
    }
  }

  function MostJunk(list: seq<string>): (most: nat)
    ensures forall d | d in list :: Junk(d) <= most
  {
    if list == [] then 0
    else
      var most := MostJunk(list[1..]);
      if Junk(list[0]) > most then Junk(list[0]) else most
  }

  lemma {:induction false} UnsettledCannotReplay(list: seq<string>, u: string)
    requires Normalized(list) == list && NoneStartsBlank(list)
    requires u in list && !SettledHost(u)
    ensures false
    decreases MostJunk(list) - Junk(u)
  {
    hide SettledHost, Junk, Normalized;
    var e := UnsettledNeedsMoreJunk(list, u);
    UnsettledCannotReplay(list, e);
  }

  lemma SettledListIsClosed(list: seq<string>)
    requires Normalized(list) == list && forall d | d in list :: SettledHost(d)
    ensures PairClosed(list, d => Twin(d))
  {
    hide SettledHost, Twin;
    AddHostsGive([], list);
    SettledHostsPairUp([], list);
    assert list[..0] == [] && list[0..] == list;
    ReplayIsClosed(list, 0, 0, d => Twin(d));
  }

  /**
   A list passes unchanged exactly when each of its hosts is settled and its twins were all placed in time.
   No host may begin with a blank, as the twin of one written `www. a` would.
   */
  lemma ReplaysWholeExactly(list: seq<string>)
    requires NoneStartsBlank(list)
    ensures Normalized(list) == list <==> NormalForm(list)
  {
    hide SettledHost, Twin, Normalized;
    if NormalForm(list) {
      NormalFormReplaysWhole(list);
    } else if Normalized(list) == list {
      if u :| u in list && !SettledHost(u) {
        UnsettledCannotReplay(list, u);
      }
      SettledListIsClosed(list);
    }
  }

  /** Whatever raw hosts it came from, the stored list is stored again unchanged exactly when it is in normal form. */
  lemma StoredListIsStableExactly(domains: seq<string>)
    requires NoneStartsBlank(Normalized(domains))
    ensures Normalized(Normalized(domains)) == Normalized(domains) <==> NormalForm(Normalized(domains))
  {
    ReplaysWholeExactly(Normalized(domains));
  }

  lemma DotBeforePort(d: string)
    requires SettledHost(d)
    ensures NormalizeOneDomain(d + ".:8") == d + "." && NormalizeOneDomain(d + ".") == d
  {
    hide NormalizeOneDomain, DropPort, Lower;
    var raw, dot := d + ".:8", d + ".";
    LowerOfDotted(d, ".");
    LowerOfDotted(d, ".:8");
    assert raw[0] == dot[0] == d[0] && dot[..|d|] == d;
    CleanupOfTrimmed(raw, raw);
    CleanupOfTrimmed(dot, dot);
    PortBehindDot(dot);
    assert dot + ":8" == raw;
  }

  lemma LowerOfDotted(d: string, end: string)
    requires Lower(d) == d && (end == "." || end == ".:8")
    ensures Lower(d + end) == d + end
  {
  }

  lemma PortBehindDot(dot: string)
    requires dot != "" && dot[|dot| - 1] == '.'
    ensures DropPort(dot + ":8") == dot
  {
    var s := dot + ":8";
    assert s[..|s| - 1] == dot + ":" && s[..|s| - 2] == dot;
    assert DigitTail(dot + ":") == 0;
  }

  /** A port behind a final dot: a second pass over what is stored binds a host that the first did not. */
  lemma DotBeforePortUnsettles(d: string)
    requires CleanHost(d)
    ensures var stored := Normalized([d + ".:8"]); d + "." in stored && d !in stored && d in Normalized(stored)
  {
    hide NormalizeOneDomain, Twin, AddHosts;
    var raw := d + ".:8";
    var stored := Normalized([raw]);
    CleanHostIsFixed(d);
    DotBeforePort(d);
    AddHostsGive([], [raw]);
    AddHostsGive([], stored);
    assert Gives(raw, d + ".") && Gives(d + ".", d) && raw in [raw];
    if d in stored {
      TwinLength(d + ".");
    }
  }

  lemma TwinLength(d: string)
    requires Twin(d).Some?
    ensures |Twin(d).value| == |d| + 4 || |Twin(d).value| == |d| - 4
  {
  }

  /** For one clean host a second pass changes the list exactly for a doubled `www.` without a wildcard. */
  lemma SingleHostIsStableExactly(d: string)
    requires CleanHost(d)
    ensures Normalized(Normalized([d])) == Normalized([d]) <==>
            !(StartsWith(d, "www.www.") && '*' !in d)
  {
    if StartsWith(d, "www.www.") && '*' !in d {
      var e := d[4..];
      var r := e[4..];
      assert d == "www." + e && e == "www." + r && e[..4] == d[4..8];
      WwwKeepsClean(e);
      assert '*' !in e;
      DoubledWwwGrows(d, e, r);
    } else {
      assert forall x | x in [d] :: SingleWww(x);
      NormalizationIsIdempotent([d]);
    }
  }

  lemma DoubledWwwGrows(d: string, e: string, r: string)
    requires CleanHost(d) && CleanHost(e) && |r| < |e| < |d|
    requires Twin(d) == Some(e) && Twin(e) == Some(r)
    ensures Normalized([d]) == [d, e] && Normalized([d, e]) == [d, e, r]
  {
    hide NormalizeOneDomain, CleanHost, Twin;
    CleanHostIsFixed(d);
    CleanHostIsFixed(e);
    assert [d][1..] == [] && [d, e][1..] == [e] && [e][1..] == [];
    assert AddHost([], d) == [d, e];
    assert AddHost([d, e], d) == [d, e];
    assert AddHost([d, e], e) == [d, e, r];
    assert AddHosts([], [d]) == AddHosts([d, e], []);
    assert AddHosts([], [d, e]) == AddHosts([d, e], [e]) == AddHosts([d, e, r], []);
  }

  /** Two labels with one dot between them. */
  ghost predicate TwoLabels(d: string) {
    exists first, second :: d == first + "." + second && '.' !in first && '.' !in second
  }

  lemma {:induction false} DotsAdd(a: string, b: string)
    ensures Dots(a + b) == Dots(a) + Dots(b)
  {
    if a == "" {
      assert a + b == b;
    } else {
      DotsAdd(a[1..], b);
      assert (a + b)[1..] == a[1..] + b;
    }
  }

  lemma {:induction false} FirstDotSplits(d: string) returns (first: string, rest: string)
    requires Dots(d) >= 1
    ensures d == first + "." + rest && '.' !in first && Dots(rest) == Dots(d) - 1
  {
    if d[0] == '.' {
      first, rest := "", d[1..];
    } else {
      first, rest := FirstDotSplits(d[1..]);
      assert d == [d[0]] + d[1..];
      first := [d[0]] + first;
    }
  }

  lemma TwoLabelsExactly(d: string)
    ensures Dots(d) == 1 <==> TwoLabels(d)
  {
    if Dots(d) == 1 {
      var first, rest := FirstDotSplits(d);
      SomeDot(rest);
    }
    if first, second :| d == first + "." + second && '.' !in first && '.' !in second {
      DotsAdd(first + ".", second);
      DotsAdd(first, ".");
      SomeDot(first);
      SomeDot(second);
    }
  }

  /** Giving either twin of a two-label apex admits both, as exact hosts. */
  lemma BothTwinsAllowed(domains: seq<string>, apex: string)
    requires CleanHost(apex) && '*' !in apex && TwoLabels(apex) && !StartsWith(apex, "www.")
    requires apex in domains || ("www." + apex) in domains
    ensures HostAllowed(apex, Normalized(domains)) && HostAllowed("www." + apex, Normalized(domains))
  {
    var www := "www." + apex;
    TwoLabelsExactly(apex);
    WwwKeepsClean(apex);
    TwinsOfApex(apex);
    BothTwinsListed(domains, apex, www);
    ExactHostMatches(apex);
    ExactHostMatches(www);
  }

  lemma TwinsOfApex(apex: string)
    requires '*' !in apex && Dots(apex) == 1 && !StartsWith(apex, "www.")
    ensures Twin(apex) == Some("www." + apex) && Twin("www." + apex) == Some(apex)
  {
  }

  lemma BothTwinsListed(domains: seq<string>, d: string, e: string)
    requires CleanHost(d) && CleanHost(e) && Twin(d) == Some(e) && Twin(e) == Some(d)
    requires d in domains || e in domains
    ensures d in Normalized(domains) && e in Normalized(domains)
  {
    hide NormalizeOneDomain, CleanHost, Twin;
    CleanHostIsFixed(d);
    CleanHostIsFixed(e);
    AddHostsGive([], domains);
    assert Gives(d, d) && Gives(d, e) && Gives(e, d) && Gives(e, e);
  }

  /** The sites of a list are its hosts without a leading `www.`, so the two twins of an apex are one site. */
  lemma SitesExactly(domains: seq<string>)
    ensures forall x :: x in Sites(domains) <==>
              exists d | d in domains :: d == "www." + x || (d == x && !StartsWith(d, "www."))
  {
    forall d | StartsWith(d, "www.") ensures d == "www." + d[4..] {}
    forall x: string ensures StartsWith("www." + x, "www.") && ("www." + x)[4..] == x {}
  }

  /** A licence given one two-label apex binds both twins and uses up one of its sites. */
  lemma ApexCountsOnce(apex: string)
    requires CleanHost(apex) && '*' !in apex && TwoLabels(apex) && !StartsWith(apex, "www.")
    ensures Normalized([apex]) == [apex, "www." + apex] && Sites(Normalized([apex])) == {apex}
  {
    hide NormalizeOneDomain, Twin, CleanHost, TwoLabels, Normalized, Sites;
    TwoLabelsExactly(apex);
    TwinsOfApex(apex);
    PairIsStored(apex, "www." + apex);
    TwinsAreOneSite(apex);
  }

  lemma PairIsStored(d: string, e: string)
    requires CleanHost(d) && Twin(d) == Some(e) && d != e
    ensures Normalized([d]) == [d, e]
  {
    hide NormalizeOneDomain, CleanHost, Twin;
    CleanHostIsFixed(d);
    assert [d][1..] == [] && AddHost([], d) == [d, e];
    assert AddHosts([], [d]) == AddHosts([d, e], []);
  }

  lemma TwinsAreOneSite(apex: string)
    requires !StartsWith(apex, "www.")
    ensures Sites([apex, "www." + apex]) == {apex}
  {
    var www := "www." + apex;
    assert www[4..] == apex && www[..4] == "www.";
  }

  lemma ExactHostMatches(d: string)
    requires '*' !in d
    ensures HostMatchesPattern(d, d)
  {
    var low := Lower(d);
    assert |d| >= 2 ==> low[0] == low[..2][0] && d[0] in d;
  }
}
