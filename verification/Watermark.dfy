/**
 Per-licence watermarks in a bundle's text: appended as a comment and a constant, read back by search.
 The keyed hash of a licence id is a parameter that yields tokens.
 */
module Watermark {
  import opened Common

  const BEGIN := "/*! oe-wm:"
  const NAME := "__oeWm"
  const TOKEN_LEN := 16

  predicate IsHex(c: char) {
    '0' <= c <= '9' || 'a' <= c <= 'f'
  }

  predicate IsToken(s: string) {
    |s| == TOKEN_LEN && forall c | c in s :: IsHex(c)
  }

  /** A token is sixteen lower-case hexadecimal digits. */
  lemma TokensExactly(s: string)
    ensures IsToken(s) <==> |s| == 16 && forall i | 0 <= i < 16 :: s[i] in LOWER_HEX
  {
    if IsToken(s) {
      forall i | 0 <= i < 16 ensures s[i] in LOWER_HEX {
        assert s[i] in s;
        LowerHexExactly(s[i]);
      }
    } else if |s| == 16 {
      var c :| c in s && !IsHex(c);
      LowerHexExactly(c);
    }
  }

  function Constant(token: string): string {
    "export const __oeWm=\"" + token + "\";\n"
  }

  /** What is appended; the first newline ends a line comment the bundle may end in. */
  function Marker(token: string): string {
    "\n" + BEGIN + token + " */\n" + Constant(token)
  }

  function ApplyWatermark(text: string, token: string): string {
    text + Marker(token)
  }

  // ---- Searching -----------------------------------------------------------

  predicate HexAt(text: string, i: nat) {
    i + TOKEN_LEN <= |text| && forall k | i <= k < i + TOKEN_LEN :: IsHex(text[k])
  }

  predicate MarkerAt(text: string, i: nat) {
    i + |BEGIN| <= |text| && text[i..i + |BEGIN|] == BEGIN && HexAt(text, i + |BEGIN|)
  }

  /** The leftmost comment marker from `i` on. */
  function FirstMarker(text: string, i: nat): (r: Option<nat>)
    ensures r.Some? ==> i <= r.value && MarkerAt(text, r.value) && forall j | i <= j < r.value :: !MarkerAt(text, j)
    ensures r.None? ==> forall j | i <= j :: !MarkerAt(text, j)
    decreases |text| - i
  {
    if i >= |text| then None
    else if MarkerAt(text, i) then Some(i)
    else FirstMarker(text, i + 1)
  }

  function SkipSpace(text: string, i: nat): (j: nat)
    ensures i <= j && (j < |text| ==> !IsSpace(text[j])) && (i <= |text| ==> j <= |text|)
    ensures forall k | i <= k < j && k < |text| :: IsSpace(text[k])
    decreases |text| - i
  {
    if i < |text| && IsSpace(text[i]) then SkipSpace(text, i + 1) else i
  }

  predicate IsQuote(c: char) {
    c == '"' || c == '\''
  }

  /** A quoted token that starts at `q`. */
  function QuotedAt(text: string, q: nat): Option<string> {
    if q + TOKEN_LEN + 1 < |text| && IsQuote(text[q]) && HexAt(text, q + 1) && IsQuote(text[q + TOKEN_LEN + 1])
    then Some(text[q + 1..q + 1 + TOKEN_LEN]) else None
  }

  /** An equals sign and a quoted token, with white space around the sign. */
  function AssignedAt(text: string, i: nat): Option<string> {
    var e := SkipSpace(text, i);
    if e < |text| && text[e] == '=' then QuotedAt(text, SkipSpace(text, e + 1)) else None
  }

  predicate NameAt(text: string, i: nat) {
    i + |NAME| <= |text| && text[i..i + |NAME|] == NAME
  }

  function ConstantAt(text: string, i: nat): Option<string> {
    if NameAt(text, i) then AssignedAt(text, i + |NAME|) else None
  }

  /** The token of the leftmost constant form from `i` on. */
  function FirstConstant(text: string, i: nat): Option<string>
    decreases |text| - i
  {
    if i >= |text| then None
    else if ConstantAt(text, i).Some? then ConstantAt(text, i)
    else FirstConstant(text, i + 1)
  }

  function CommentToken(text: string): Option<string> {
    var m := FirstMarker(text, 0);
    if m.Some? then Some(text[m.value + |BEGIN|..m.value + |BEGIN| + TOKEN_LEN]) else None
  }

  /** The comment decides; the constant serves text whose comments were stripped. */
  function ReadWatermark(text: string): Option<string> {
    if CommentToken(text).Some? then CommentToken(text) else FirstConstant(text, 0)
  }

  function FirstWith(token: string, mac: string -> string, licIds: seq<string>): Option<string> {
    if licIds == [] then None
    else if mac(licIds[0]) == token then Some(licIds[0])
    else FirstWith(token, mac, licIds[1..])
  }

  function Match(text: string, mac: string -> string, licIds: seq<string>): Option<string> {
    match ReadWatermark(text)
    case None => None
    case Some(token) => FirstWith(token, mac, licIds)
  }

  /** `matchWatermark`. */
  method MatchWatermark(text: string, mac: string -> string, licIds: seq<string>) returns (lic: Option<string>)
    ensures lic == Match(text, mac, licIds)
  {
    var token := ReadWatermark(text);
    if token.None? {
      return None;
    }
    var i := 0;
    while i < |licIds|
      invariant 0 <= i <= |licIds|
      invariant FirstWith(token.value, mac, licIds) == FirstWith(token.value, mac, licIds[i..])
    {
      if mac(licIds[i]) == token.value {
        return Some(licIds[i]);
      }
      i := i + 1;
    }
    return None;
  }

  // ---- Writing and reading back --------------------------------------------

  lemma MarkerHasNoBreak(text: string, i: nat)
    requires MarkerAt(text, i)
    ensures forall k | i <= k < i + |BEGIN| + TOKEN_LEN :: text[k] != '\n'
  {
  }

  /** No comment marker straddles a line break. */
  lemma MarkerStaysInLine(text: string, rest: string, i: nat)
    requires i <= |text|
    ensures MarkerAt(text + "\n" + rest, i) <==> MarkerAt(text, i)
  {
    var whole := text + "\n" + rest;
    assert whole[|text|] == '\n' && forall k | 0 <= k < |text| :: whole[k] == text[k];
    if MarkerAt(whole, i) {
      MarkerHasNoBreak(whole, i);
    }
    if i + |BEGIN| <= |text| {
      assert whole[i..i + |BEGIN|] == text[i..i + |BEGIN|];
    }
  }

  lemma AppendedMarker(text: string, token: string)
    requires IsToken(token)
    ensures var t := ApplyWatermark(text, token); var at := |text| + 1;
            MarkerAt(t, at) && t[at + |BEGIN|..at + |BEGIN| + TOKEN_LEN] == token
  {
  }

  /** Text after a line break only matters where no marker stood before it. */
  lemma FirstMarkerAcross(text: string, rest: string)
    ensures var m, n := FirstMarker(text + "\n" + rest, 0), FirstMarker(text, 0);
            && (n.Some? ==> m == n)
            && (n.None? && MarkerAt(text + "\n" + rest, |text| + 1) ==> m == Some(|text| + 1))
  {
    var whole := text + "\n" + rest;
    forall i: nat | i <= |text| ensures MarkerAt(whole, i) <==> MarkerAt(text, i) {
      MarkerStaysInLine(text, rest, i);
    }
    var n := FirstMarker(text, 0);
    assert n.Some? ==> n.value < |text|;
    hide MarkerAt;
  }

  lemma ReadsAcross(text: string, rest: string, token: string)
    requires MarkerAt(text + "\n" + rest, |text| + 1)
    requires (text + "\n" + rest)[|text| + 1 + |BEGIN|..|text| + 1 + |BEGIN| + TOKEN_LEN] == token
    ensures CommentToken(text + "\n" + rest) == if CommentToken(text).Some? then CommentToken(text) else Some(token)
  {
    FirstMarkerAcross(text, rest);
    var n := FirstMarker(text, 0);
    if n.Some? {
      assert (text + "\n" + rest)[n.value + |BEGIN|..n.value + |BEGIN| + TOKEN_LEN]
          == text[n.value + |BEGIN|..n.value + |BEGIN| + TOKEN_LEN];
    }
  }

  /** Reading a marked bundle finds the marker it already had, if any, and otherwise the one appended. */
  lemma ReadsFirstMarker(text: string, token: string)
    requires IsToken(token)
    ensures ReadWatermark(ApplyWatermark(text, token)) == if CommentToken(text).Some? then CommentToken(text)
            else Some(token)
  {
    var rest := BEGIN + token + " */\n" + Constant(token);
    assert ApplyWatermark(text, token) == text + "\n" + rest;
    AppendedMarker(text, token);
    hide ApplyWatermark, MarkerAt, CommentToken, FirstConstant;
    ReadsAcross(text, rest, token);
  }

  /** The bundle is an untouched prefix, and its licence's token reads back exactly unless another marker came first. */
  lemma ReadBackExactly(text: string, token: string)
    requires IsToken(token)
    ensures text <= ApplyWatermark(text, token)
    ensures ReadWatermark(ApplyWatermark(text, token)) == Some(token)
            <==> CommentToken(text) == None || CommentToken(text) == Some(token)
  {
    ReadsFirstMarker(text, token);
  }

  /** Marking a marked copy again cannot hide whose copy it was. */
  lemma FirstOwnerRemains(text: string, first: string, second: string)
    requires IsToken(first) && IsToken(second) && CommentToken(text) == None
    ensures ReadWatermark(ApplyWatermark(ApplyWatermark(text, first), second)) == Some(first)
  {
    ReadsFirstMarker(text, first);
    ReadsFirstMarker(ApplyWatermark(text, first), second);
    AppendedMarker(text, first);
    var m := FirstMarker(ApplyWatermark(text, first), 0);
    assert m.Some?;
  }

  /** The licence is listed with nothing of this token before it. */
  ghost predicate FirstOf(token: string, mac: string -> string, licIds: seq<string>, lic: string) {
    exists i :: 0 <= i < |licIds| && licIds[i] == lic && forall j | 0 <= j < i :: mac(licIds[j]) != token
  }

  lemma {:induction false} FirstWithExactly(token: string, mac: string -> string, licIds: seq<string>, lic: string)
    ensures FirstWith(token, mac, licIds) == Some(lic)
            <==> mac(lic) == token && FirstOf(token, mac, licIds, lic)
    decreases |licIds|
  {
    if licIds != [] {
      var rest := licIds[1..];
      FirstWithExactly(token, mac, rest, lic);
      if mac(licIds[0]) != token {
        if i :| 0 <= i < |rest| && rest[i] == lic && forall j | 0 <= j < i :: mac(rest[j]) != token {
          assert licIds[i + 1] == lic && forall j | 0 <= j < i + 1 :: mac(licIds[j]) != token;
        }
        if mac(lic) == token && FirstOf(token, mac, licIds, lic) {
          var i :| 0 <= i < |licIds| && licIds[i] == lic && forall j | 0 <= j < i :: mac(licIds[j]) != token;
          assert i > 0 && rest[i - 1] == lic;
          assert forall j | 0 <= j < i - 1 :: rest[j] == licIds[j + 1];
        }
      }
    }
  }

  /** A leaked copy is traced to its licence exactly when no licence listed before it has the same token. */
  lemma TracesLicenceExactly(text: string, mac: string -> string, licIds: seq<string>, lic: string)
    requires IsToken(mac(lic)) && CommentToken(text) == None
    ensures Match(ApplyWatermark(text, mac(lic)), mac, licIds) == Some(lic)
            <==> FirstOf(mac(lic), mac, licIds, lic)
  {
    ReadsFirstMarker(text, mac(lic));
    FirstWithExactly(mac(lic), mac, licIds, lic);
  }

  // ---- Comments stripped ---------------------------------------------------

  /** The constant as written, or with the quotes a minifier may have turned into single ones. */
  function Quoted(token: string, quote: char): string {
    "export const __oeWm=" + [quote] + token + [quote] + ";\n"
  }

  /** The marked bundle after a minifier removed the marker's comment, and perhaps changed its quotes. */
  function Stripped(text: string, token: string, quote: char): string {
    text + "\n\n" + Quoted(token, quote)
  }

  lemma SkipInPrefix(text: string, tail: string, i: nat)
    requires i <= |text| && tail != [] && tail[0] == 'e'
    ensures var whole := text + "\n\n" + tail;
            SkipSpace(whole, i) == if SkipSpace(text, i) < |text| then SkipSpace(text, i) else |text| + 2
    decreases |text| - i
  {
    var whole := text + "\n\n" + tail;
    if i < |text| {
      assert whole[i] == text[i];
      if IsSpace(text[i]) {
        SkipInPrefix(text, tail, i + 1);
      }
    } else {
      assert whole[i] == '\n' && whole[i + 1] == '\n' && whole[i + 2] == 'e';
      assert SkipSpace(whole, i) == SkipSpace(whole, i + 1) == SkipSpace(whole, i + 2);
    }
  }

  lemma QuotedInPrefix(text: string, tail: string, q: nat)
    requires q <= |text| && tail != [] && tail[0] == 'e'
    ensures QuotedAt(text + "\n\n" + tail, q) == QuotedAt(text, q)
  {
    var whole := text + "\n\n" + tail;
    if q < |text| && q + TOKEN_LEN + 1 >= |text| {
      assert whole[|text|] == '\n';
    }
    assert forall k | q <= k < |text| :: whole[k] == text[k];
    if q + TOKEN_LEN + 1 < |text| {
      assert whole[q + 1..q + 1 + TOKEN_LEN] == text[q + 1..q + 1 + TOKEN_LEN];
    }
  }

  lemma NameInPrefix(text: string, tail: string, i: nat)
    requires i < |text|
    ensures NameAt(text + "\n\n" + tail, i) <==> NameAt(text, i)
  {
    var whole := text + "\n\n" + tail;
    if i + |NAME| <= |text| {
      assert whole[i..i + |NAME|] == text[i..i + |NAME|];
    } else if i + |NAME| <= |whole| {
      var k := |text| - i;
      assert whole[i..i + |NAME|][k] == whole[|text|] == '\n' && NAME[k] != '\n';
    }
  }

  lemma AssignedInPrefix(text: string, tail: string, i: nat)
    requires i <= |text| && tail != [] && tail[0] == 'e'
    ensures AssignedAt(text + "\n\n" + tail, i) == AssignedAt(text, i)
  {
    hide SkipSpace, QuotedAt;
    var whole := text + "\n\n" + tail;
    assert whole[|text| + 2] == 'e';
    SkipInPrefix(text, tail, i);
    var e := SkipSpace(text, i);
    if e < |text| {
      assert whole[e] == text[e];
      SkipInPrefix(text, tail, e + 1);
      QuotedInPrefix(text, tail, SkipSpace(text, e + 1));
      NoQuoteAtTail(text, tail);
    }
  }

  /** The constant form cannot straddle the blank line either, though it allows white space inside. */
  lemma ConstantStaysInPrefix(text: string, tail: string, i: nat)
    requires i < |text| && tail != [] && tail[0] == 'e'
    ensures ConstantAt(text + "\n\n" + tail, i) == ConstantAt(text, i)
  {
    NameInPrefix(text, tail, i);
    if NameAt(text, i) {
      AssignedInPrefix(text, tail, i + |NAME|);
    }
    hide NameAt, AssignedAt;
  }

  lemma NoQuoteAtTail(text: string, tail: string)
    requires tail != [] && tail[0] == 'e'
    ensures QuotedAt(text + "\n\n" + tail, |text| + 2) == None
    ensures QuotedAt(text, |text|) == None
  {
  }

  lemma {:induction false} FirstConstantAcross(text: string, tail: string, i: nat)
    requires i <= |text| && tail != [] && tail[0] == 'e'
    ensures var whole := text + "\n\n" + tail;
            FirstConstant(whole, i) == if FirstConstant(text, i).Some? then FirstConstant(text, i)
              else FirstConstant(whole, |text|)
    decreases |text| - i
  {
    if i < |text| {
      ConstantStaysInPrefix(text, tail, i);
      FirstConstantAcross(text, tail, i + 1);
      hide ConstantAt;
    }
  }

  lemma {:induction false} FirstConstantFrom(text: string, i: nat, at: nat)
    requires i <= at < |text| && ConstantAt(text, at).Some? && forall j | i <= j < at :: ConstantAt(text, j) == None
    ensures FirstConstant(text, i) == ConstantAt(text, at)
    decreases at - i
  {
    hide ConstantAt;
    if i < at {
      FirstConstantFrom(text, i + 1, at);
    }
  }

  const LEAD := "\n\nexport const "

  lemma ConstantParts(text: string, token: string, quote: char)
    ensures Stripped(text, token, quote) == text + LEAD + NAME + "=" + [quote] + token + [quote] + ";\n"
  {
  }

  lemma AppendedConstant(text: string, token: string, quote: char)
    requires IsToken(token) && (quote == '"' || quote == '\'')
    ensures var t, at := Stripped(text, token, quote), |text| + |LEAD|;
            ConstantAt(t, at) == Some(token) && forall j | |text| <= j < at :: ConstantAt(t, j) == None
  {
    var t, at := Stripped(text, token, quote), |text| + |LEAD|;
    ConstantParts(text, token, quote);
    hide Stripped;
    var q := at + |NAME| + 1;
    assert t[at..at + |NAME|] == NAME && t[at + |NAME|] == '=' && t[q] == quote && t[q + 1 + TOKEN_LEN] == quote;
    assert t[q + 1..q + 1 + TOKEN_LEN] == token;
    forall k | q + 1 <= k < q + 1 + TOKEN_LEN ensures IsHex(t[k]) {
      assert t[k] == token[k - q - 1] && token[k - q - 1] in token;
    }
    forall j | |text| <= j < at ensures ConstantAt(t, j) == None {
      assert t[j] == LEAD[j - |text|] && LEAD[j - |text|] != '_';
      assert j + |NAME| <= |t| ==> t[j..j + |NAME|][0] == t[j];
    }
  }

  lemma StrippedHasNoComment(text: string, token: string, quote: char)
    requires IsToken(token) && CommentToken(text) == None && (quote == '"' || quote == '\'')
    ensures CommentToken(Stripped(text, token, quote)) == None
  {
    var t := Stripped(text, token, quote);
    ConstantParts(text, token, quote);
    assert t == text + "\n" + ("\n" + Quoted(token, quote));
    forall i | 0 <= i < |t| ensures !MarkerAt(t, i) {
      if i <= |text| {
        MarkerStaysInLine(text, "\n" + Quoted(token, quote), i);
      } else {
        NoSlash(text, token, quote, i);
        assert i + |BEGIN| <= |t| ==> t[i..i + |BEGIN|][0] == t[i];
      }
    }
  }

  lemma NoSlash(text: string, token: string, quote: char, i: nat)
    requires IsToken(token) && (quote == '"' || quote == '\'') && |text| < i < |Stripped(text, token, quote)|
    ensures Stripped(text, token, quote)[i] != '/'
  {
    ConstantParts(text, token, quote);
    var k := i - |text| - |LEAD| - |NAME| - 2;
    if 0 <= k < TOKEN_LEN {
      assert Stripped(text, token, quote)[i] == token[k] && token[k] in token;
    }
  }

  /**
   A copy whose comments a minifier removed, whichever quotes it uses, still reads back its licence's token,
   exactly when no such constant of another token stood in the bundle itself.
   */
  lemma StrippedReadsBackExactly(text: string, token: string, quote: char)
    requires IsToken(token) && CommentToken(text) == None && (quote == '"' || quote == '\'')
    ensures ReadWatermark(Stripped(text, token, quote)) == Some(token)
            <==> FirstConstant(text, 0) == None || FirstConstant(text, 0) == Some(token)
  {
    StrippedHasNoComment(text, token, quote);
    AppendedConstant(text, token, quote);
    FirstConstantFrom(Stripped(text, token, quote), |text|, |text| + |LEAD|);
    FirstConstantAcross(text, Quoted(token, quote), 0);
    hide CommentToken, FirstConstant, ConstantAt;
    assert Stripped(text, token, quote) == text + "\n\n" + Quoted(token, quote);
  }
}
