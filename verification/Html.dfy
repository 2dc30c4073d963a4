/** The browser-composition HTML pipeline: the whitelist printer `_SafeHtmlFilter`
and the tag stripper `_strip_html_tags` that reads the printer's output back.

Tokenising is not modelled: a document is the list of events the HTML parser reports
(with character references already converted in text).
 */
module Html {
  import Text
  import opened Outcomes

  datatype Attribute = Attribute(name: string, value: Option<string>)

  datatype Event =
    | StartTag(tag: string, attrs: seq<Attribute>)
    | StartEndTag(tag: string, attrs: seq<Attribute>)
    | EndTag(tag: string)
    | Data(text: string)
    | Ignored(text: string) // comments, declarations, processing instructions

  const ALLOWED_TAGS: set<string> := {"p", "b", "i", "u", "em", "strong", "br", "span", "div"}
  const VOID_TAGS: set<string> := {"br"}

  // ---------------------------------------------------------------------------
  // Escaping
  // ---------------------------------------------------------------------------

  function Replace(s: string, c: char, sub: string): string {
    if s == [] then [] else (if s[0] == c then sub else [s[0]]) + Replace(s[1..], c, sub)
  }

  /** `html.escape`: five replacements, the ampersand first. */
  function Escape(s: string): string {
    var s := Replace(s, '&', "&amp;");
    var s := Replace(s, '<', "&lt;");
    var s := Replace(s, '>', "&gt;");
    var s := Replace(s, '"', "&quot;");
    Replace(s, '\'', "&#x27;")
  }

  // ---------------------------------------------------------------------------
  // The printer
  // ---------------------------------------------------------------------------

  /** What one event contributes to the output. */
  function Piece(e: Event): string {
    match e
    case StartTag(t, _) => if t in ALLOWED_TAGS then "<" + t + ">" else ""
    case StartEndTag(t, _) => if t in ALLOWED_TAGS then "<" + t + ">" else ""
    case EndTag(t) => if t in ALLOWED_TAGS && t !in VOID_TAGS then "</" + t + ">" else ""
    case Data(d) => Escape(d)
    case Ignored(_) => ""
  }

  function Sanitized(events: seq<Event>): string {
    if events == [] then [] else Piece(events[0]) + Sanitized(events[1..])
  }

  lemma {:induction false} SanitizedSnoc(events: seq<Event>, e: Event)
    ensures Sanitized(events + [e]) == Sanitized(events) + Piece(e)
  {
    if events == [] {
      assert [e][1..] == [];
    } else {
      assert (events + [e])[1..] == events[1..] + [e];
      SanitizedSnoc(events[1..], e);
    }
  }

  function Concat(parts: seq<string>): string {
    if parts == [] then [] else Concat(parts[..|parts| - 1]) + parts[|parts| - 1]
  }

  class SafeHtmlFilter {
    var buf: seq<string>

    constructor ()
      ensures buf == []
    {
      buf := [];
    }

    method HandleStartTag(tag: string, attrs: seq<Attribute>)
      modifies this
      ensures Concat(buf) == Concat(old(buf)) + Piece(StartTag(tag, attrs))
      ensures Concat(buf) == Concat(old(buf)) + if IsKept(tag) then "<" + tag + ">" else ""
    {
      WhitelistIsKept(tag);
      if tag in ALLOWED_TAGS {
        buf := buf + ["<" + tag + ">"];
      }
    }

    method HandleStartEndTag(tag: string, attrs: seq<Attribute>)
      modifies this
      ensures Concat(buf) == Concat(old(buf)) + Piece(StartEndTag(tag, attrs))
      ensures Concat(buf) == Concat(old(buf)) + if IsKept(tag) then "<" + tag + ">" else ""
    {
      WhitelistIsKept(tag);
      if tag in ALLOWED_TAGS {
        buf := buf + ["<" + tag + ">"];
      }
    }

    method HandleEndTag(tag: string)
      modifies this
      ensures Concat(buf) == Concat(old(buf)) + Piece(EndTag(tag))
      ensures Concat(buf) == Concat(old(buf)) + if IsKept(tag) && tag != "br" then "</" + tag + ">" else ""
    {
      WhitelistIsKept(tag);
      if tag in ALLOWED_TAGS && tag !in VOID_TAGS {
        buf := buf + ["</" + tag + ">"];
      }
    }

    method HandleData(data: string)
      modifies this
      ensures Concat(buf) == Concat(old(buf)) + Piece(Data(data))
    {
      buf := buf + [Escape(data)];
    }

    /** The parser's dispatch of one event. */
    method Feed(e: Event)
      modifies this
      ensures Concat(buf) == Concat(old(buf)) + Piece(e)
    {
      match e {
        case StartTag(tag, attrs) => HandleStartTag(tag, attrs);
        case StartEndTag(tag, attrs) => HandleStartEndTag(tag, attrs);
        case EndTag(tag) => HandleEndTag(tag);
        case Data(text) => HandleData(text);
        case Ignored(_) =>
      }
    }

    method GetOutput() returns (out: string)
      ensures out == Concat(buf)
    {
      out := "";
      for i := 0 to |buf|
        invariant out == Concat(buf[..i])
      {
        assert buf[..i + 1][..i] == buf[..i];
        out := out + buf[i];
      }
      assert buf[..|buf|] == buf;
    }
  }

  method SanitizeHtmlContent(events: seq<Event>) returns (out: string)
    ensures out == Sanitized(events)
    ensures OnlyWhitelistedMarkup(out)
    ensures Tokens(out) == Expected(events)
  {
    var filter := new SafeHtmlFilter();
    hide Piece, OnlyWhitelistedMarkup, StartsWithTag, ALLOWED_TAGS, Tokens, Expected;
    for i := 0 to |events|
      invariant Concat(filter.buf) == Sanitized(events[..i])
    {
      filter.Feed(events[i]);
      SanitizedSnoc(events[..i], events[i]);
      assert events[..i + 1] == events[..i] + [events[i]];
    }
    assert events[..|events|] == events;
    out := filter.GetOutput();
    SanitizedIsSafe(events);
    SanitizedReadsBack(events);
  }

  // ---------------------------------------------------------------------------
  // The stripper
  // ---------------------------------------------------------------------------

  /** Case-insensitive match of a lower-case pattern letter, as `re.IGNORECASE` does it. */
  predicate CaseEq(c: char, lower: char)
    requires 'a' <= lower <= 'z'
  {
    || c == lower
    || (c as int) + 32 == lower as int
    || (lower == 'i' && (c == '\U{130}' || c == '\U{131}'))
  }

  /** Length of the block-tag name `br|p|div|li|h[1-6]` at the start, 0 if there is none. */
  function BlockNameLength(s: string): (n: nat)
    ensures n <= |s|
  {
    if |s| >= 2 && CaseEq(s[0], 'b') && CaseEq(s[1], 'r') then 2
    else if |s| >= 1 && CaseEq(s[0], 'p') then 1
    else if |s| >= 3 && CaseEq(s[0], 'd') && CaseEq(s[1], 'i') && CaseEq(s[2], 'v') then 3
    else if |s| >= 2 && CaseEq(s[0], 'l') && CaseEq(s[1], 'i') then 2
    else if |s| >= 2 && CaseEq(s[0], 'h') && '1' <= s[1] <= '6' then 2
    else 0
  }

  /** Number of characters before the first '>', or the whole length. */
  function SpanToGt(s: string): (n: nat)
    ensures n <= |s|
    ensures n < |s| ==> s[n] == '>'
    ensures '>' !in s[..n]
  {
    if s == [] || s[0] == '>' then 0 else 1 + SpanToGt(s[1..])
  }

  /** Length of the match of `<(br|p|div|li|h[1-6])[^>]*>` at the start, 0 for no match. */
  function BlockMatch(s: string): (n: nat)
    ensures n <= |s|
  {
    if s != [] && s[0] == '<' then
      var k := BlockNameLength(s[1..]);
      var m := SpanToGt(s[1 + k..]);
      if k > 0 && 1 + k + m < |s| then 1 + k + m + 1 else 0
    else 0
  }

  /** `re.sub(r"<(br|p|div|li|h[1-6])[^>]*>", "\n", s, flags=re.IGNORECASE)` */
  function BlocksToNewlines(s: string): string
    decreases |s|
  {
    if s == [] then []
    else if BlockMatch(s) > 0 then "\n" + BlocksToNewlines(s[BlockMatch(s)..])
    else [s[0]] + BlocksToNewlines(s[1..])
  }

  /** Length of the match of `<[^>]+>` at the start, 0 for no match. */
  function TagMatch(s: string): (n: nat)
    ensures n <= |s|
  {
    if s != [] && s[0] == '<' then
      var m := SpanToGt(s[1..]);
      if m > 0 && 1 + m < |s| then 1 + m + 1 else 0
    else 0
  }

  /** `re.sub(r"<[^>]+>", "", s)` */
  function StripTags(s: string): string
    decreases |s|
  {
    if s == [] then []
    else if TagMatch(s) > 0 then StripTags(s[TagMatch(s)..])
    else [s[0]] + StripTags(s[1..])
  }

  // ---------------------------------------------------------------------------
  // html.unescape
  // ---------------------------------------------------------------------------

  /** The tables of `html.unescape`; only the facts in `Html5` are used. */
  datatype Entities = Entities(named: map<string, string>, invalidCharrefs: map<nat, string>,
                               invalidCodepoints: set<nat>)

  predicate Html5(tab: Entities) {
    && "amp;" in tab.named && tab.named["amp;"] == "&"
    && "lt;" in tab.named && tab.named["lt;"] == "<"
    && "gt;" in tab.named && tab.named["gt;"] == ">"
    && "quot;" in tab.named && tab.named["quot;"] == "\""
    && 0x27 !in tab.invalidCharrefs && 0x27 !in tab.invalidCodepoints
  }

  predicate IsDigit(c: char) {
    '0' <= c <= '9'
  }

  predicate IsHexDigit(c: char) {
    '0' <= c <= '9' || 'a' <= c <= 'f' || 'A' <= c <= 'F'
  }

  predicate IsNameChar(c: char) {
    c !in "\t\n\U{0C} <&#;"
  }

  /** Length of the longest prefix of at most `limit` characters that satisfy `p`. */
  function Span(s: string, p: char -> bool, limit: nat): (n: nat)
    ensures n <= |s| && n <= limit
    ensures forall i :: 0 <= i < n ==> p(s[i])
  {
    if s == [] || limit == 0 || !p(s[0]) then 0 else 1 + Span(s[1..], p, limit - 1)
  }

  /** A match of the pattern at the start of a text, as text after the ampersand. */
  datatype Charref =
    | NoCharref
    | Decimal(digits: string, length: nat)
    | Hex(digits: string, length: nat)
    | Named(name: string, length: nat)

  function WithSemicolon(s: string, n: nat): (r: nat)
    requires n <= |s|
    ensures n <= r <= |s|
  {
    if n < |s| && s[n] == ';' then n + 1 else n
  }

  /** The match of `#[0-9]+;?|#[xX][0-9a-fA-F]+;?|[^\t\n\f <&#;]{1,32};?` */
  function MatchCharref(s: string): (m: Charref)
    ensures !m.NoCharref? ==> 0 < m.length <= |s|
    ensures m.Decimal? || m.Hex? ==> forall i :: 0 <= i < |m.digits| ==> IsHexDigit(m.digits[i])
    ensures m.Named? ==> m.name != []
  {
    if s != [] && s[0] == '#' then
      var d := Span(s[1..], IsDigit, |s|);
      if d > 0 then Decimal(s[1..][..d], WithSemicolon(s, 1 + d))
      else if |s| > 1 && (s[1] == 'x' || s[1] == 'X') then
        var h := Span(s[2..], IsHexDigit, |s|);
        if h > 0 then Hex(s[2..][..h], WithSemicolon(s, 2 + h)) else NoCharref
      else NoCharref
    else
      var k := Span(s, IsNameChar, 32);
      if k > 0 then Named(s[..WithSemicolon(s, k)], WithSemicolon(s, k)) else NoCharref
  }

  function DigitValue(c: char): (v: nat)
    requires IsHexDigit(c)
  {
    if c <= '9' then c as int - '0' as int
    else if c <= 'F' then c as int - 'A' as int + 10
    else c as int - 'a' as int + 10
  }

  function ParseDigits(s: string, base: nat, acc: nat): nat
    requires forall i :: 0 <= i < |s| ==> IsHexDigit(s[i])
  {
    if s == [] then acc else ParseDigits(s[1..], base, acc * base + DigitValue(s[0]))
  }

  /** A numeric character reference, already parsed. */
  function CodepointText(num: nat, tab: Entities): string {
    if num in tab.invalidCharrefs then tab.invalidCharrefs[num]
    else if 0xD800 <= num <= 0xDFFF || num > 0x10FFFF then "\U{FFFD}"
    else if num in tab.invalidCodepoints then ""
    else [num as char]
  }

  /** The longest known entity name that is a proper prefix of length at most `x`. */
  function NamedPrefix(s: string, x: nat, tab: Entities): string
    requires x < |s|
  {
    if x < 2 then "&" + s
    else if s[..x] in tab.named then tab.named[s[..x]] + s[x..]
    else NamedPrefix(s, x - 1, tab)
  }

  function CharrefText(m: Charref, tab: Entities): string
    requires !m.NoCharref?
    requires m.Decimal? || m.Hex? ==> forall i :: 0 <= i < |m.digits| ==> IsHexDigit(m.digits[i])
    requires m.Named? ==> m.name != []
  {
    match m
    case Decimal(ds, _) => CodepointText(ParseDigits(ds, 10, 0), tab)
    case Hex(ds, _) => CodepointText(ParseDigits(ds, 16, 0), tab)
    case Named(name, _) => if name in tab.named then tab.named[name] else NamedPrefix(name, |name| - 1, tab)
  }

  /** `html.unescape` */
  function Unescape(s: string, tab: Entities): string
    decreases |s|
  {
    if s == [] then []
    else
      var m := MatchCharref(s[1..]);
      if s[0] == '&' && !m.NoCharref? then CharrefText(m, tab) + Unescape(s[1 + m.length..], tab)
      else [s[0]] + Unescape(s[1..], tab)
  }

  /** `_strip_html_tags` before its final normalisation. */
  function StripMarkup(html: string, tab: Entities): string {
    Unescape(StripTags(BlocksToNewlines(html)), tab)
  }

  function StripHtmlTags(html: string, tab: Entities, nfc: string -> string, other: char -> bool): string {
    Text.NormalizeText(StripMarkup(html, tab), nfc, other)
  }

  // ---------------------------------------------------------------------------
  // Escaping is undone character by character
  // ---------------------------------------------------------------------------

  function EscapeChar(c: char): string {
    match c
    case '&' => "&amp;"
    case '<' => "&lt;"
    case '>' => "&gt;"
    case '"' => "&quot;"
    case '\'' => "&#x27;"
    case _ => [c]
  }

  lemma {:induction false} ReplaceAppend(a: string, b: string, c: char, sub: string)
    ensures Replace(a + b, c, sub) == Replace(a, c, sub) + Replace(b, c, sub)
  {
    if a == [] {
      assert a + b == b;
    } else {
      assert (a + b)[1..] == a[1..] + b;
      ReplaceAppend(a[1..], b, c, sub);
    }
  }

  lemma {:induction false} ReplaceAbsent(a: string, c: char, sub: string)
    requires c !in a
    ensures Replace(a, c, sub) == a
  {
    if a != [] {
      ReplaceAbsent(a[1..], c, sub);
    }
  }

  lemma EscapeAppend(a: string, b: string)
    ensures Escape(a + b) == Escape(a) + Escape(b)
  {
    ReplaceAppend(a, b, '&', "&amp;");
    var a1, b1 := Replace(a, '&', "&amp;"), Replace(b, '&', "&amp;");
    ReplaceAppend(a1, b1, '<', "&lt;");
    var a2, b2 := Replace(a1, '<', "&lt;"), Replace(b1, '<', "&lt;");
    ReplaceAppend(a2, b2, '>', "&gt;");
    var a3, b3 := Replace(a2, '>', "&gt;"), Replace(b2, '>', "&gt;");
    ReplaceAppend(a3, b3, '"', "&quot;");
    ReplaceAppend(Replace(a3, '"', "&quot;"), Replace(b3, '"', "&quot;"), '\'', "&#x27;");
  }

  lemma ReplaceOne(c: char, sub: string)
    ensures Replace([c], c, sub) == sub
  {
    assert [c][1..] == [];
    assert sub + [] == sub;
  }

  /** The later replacements leave the entity text of the earlier ones alone. */
  lemma EscapeOne(c: char)
    ensures Escape([c]) == EscapeChar(c)
  {
    hide Replace;
    match c {
      case '&' =>
        ReplaceOne(c, "&amp;");
        Settled("&amp;", 1);
      case '<' =>
        ReplaceAbsent("<", '&', "&amp;");
        ReplaceOne(c, "&lt;");
        Settled("&lt;", 2);
      case '>' =>
        ReplaceAbsent(">", '&', "&amp;");
        ReplaceAbsent(">", '<', "&lt;");
        ReplaceOne(c, "&gt;");
        Settled("&gt;", 3);
      case '"' =>
        ReplaceAbsent("\"", '&', "&amp;");
        ReplaceAbsent("\"", '<', "&lt;");
        ReplaceAbsent("\"", '>', "&gt;");
        ReplaceOne(c, "&quot;");
        Settled("&quot;", 4);
      case '\'' =>
        ReplaceAbsent("'", '&', "&amp;");
        ReplaceAbsent("'", '<', "&lt;");
        ReplaceAbsent("'", '>', "&gt;");
        ReplaceAbsent("'", '"', "&quot;");
        ReplaceOne(c, "&#x27;");
      case _ =>
        ReplaceAbsent([c], '&', "&amp;");
        Settled([c], 1);
    }
  }

  /** The replacements from the `k`-th on leave `s` alone. */
  lemma Settled(s: string, k: nat)
    requires 1 <= k <= 4 && '\'' !in s
    requires k <= 1 ==> '<' !in s
    requires k <= 2 ==> '>' !in s
    requires k <= 3 ==> '"' !in s
    ensures k <= 1 ==> Replace(s, '<', "&lt;") == s
    ensures k <= 2 ==> Replace(s, '>', "&gt;") == s
    ensures k <= 3 ==> Replace(s, '"', "&quot;") == s
    ensures Replace(s, '\'', "&#x27;") == s
  {
    if k <= 1 { ReplaceAbsent(s, '<', "&lt;"); }
    if k <= 2 { ReplaceAbsent(s, '>', "&gt;"); }
    if k <= 3 { ReplaceAbsent(s, '"', "&quot;"); }
    ReplaceAbsent(s, '\'', "&#x27;");
  }

  lemma EscapeStep(s: string)
    requires s != []
    ensures Escape(s) == EscapeChar(s[0]) + Escape(s[1..])
  {
    assert s == [s[0]] + s[1..];
    EscapeAppend([s[0]], s[1..]);
    EscapeOne(s[0]);
  }

  lemma EscapeNothing()
    ensures Escape([]) == []
  {
  }

  lemma EscapeCharIsInert(c: char)
    ensures forall d :: d in EscapeChar(c) ==> d !in "<>\"'"
  {
  }

  /** Escaped text contains no markup and no quote, so it can be pasted anywhere. */
  lemma {:induction false} EscapeIsInert(s: string)
    ensures forall c :: c in Escape(s) ==> c !in "<>\"'"
  {
    hide Escape, EscapeChar;
    if s == [] {
      assert Escape([]) == [] by {
        EscapeNothing();
      }
    } else {
      EscapeStep(s);
      EscapeIsInert(s[1..]);
      EscapeCharIsInert(s[0]);
    }
  }

  lemma {:induction false} SpanStop(a: string, r: string, p: char -> bool, limit: nat)
    requires |a| <= limit && forall i :: 0 <= i < |a| ==> p(a[i])
    requires r != [] && !p(r[0])
    ensures Span(a + r, p, limit) == |a|
  {
    if a == [] {
      assert a + r == r;
    } else {
      assert (a + r)[1..] == a[1..] + r;
      SpanStop(a[1..], r, p, limit - 1);
    }
  }

  lemma UnescapeNamed(name: string, r: string, tab: Entities)
    requires 0 < |name| <= 32 && (forall i :: 0 <= i < |name| ==> IsNameChar(name[i]))
    requires name + ";" in tab.named
    ensures Unescape("&" + name + ";" + r, tab) == tab.named[name + ";"] + Unescape(r, tab)
  {
    var s := "&" + name + ";" + r;
    assert s[1..] == name + (";" + r);
    SpanStop(name, ";" + r, IsNameChar, 32);
    assert s[1..][..|name| + 1] == name + ";";
    assert s[1 + |name| + 1..] == r;
  }

  lemma {:induction false} ParsedNumber(digits: string, acc: nat, last: char)
    requires (forall i :: 0 <= i < |digits| ==> '0' <= digits[i] <= '9') && '0' <= last <= '9'
    ensures ParseDigits(digits + [last], 10, acc) == 10 * ParseDigits(digits, 10, acc) + (last as int - '0' as int)
  {
    if digits == [] {
      assert [] + [last] == [last] && [last][1..] == [];
    } else {
      assert (digits + [last])[1..] == digits[1..] + [last];
      ParsedNumber(digits[1..], acc * 10 + DigitValue(digits[0]), last);
    }
  }

  lemma {:induction false} ParsedValue(digits: string)
    requires forall i :: 0 <= i < |digits| ==> '0' <= digits[i] <= '9'
    ensures ParseDigits(digits, 10, 0) == Text.NumberOf(digits)
  {
    if digits != [] {
      var init, last := digits[..|digits| - 1], digits[|digits| - 1];
      assert digits == init + [last];
      ParsedValue(init);
      ParsedNumber(init, 0, last);
    }
  }

  /** A decimal reference to a character stands for it; one that is out of range, or of a surrogate, for the
      replacement character. */
  lemma UnescapeDecimal(digits: string, r: string, tab: Entities)
    requires digits != [] && forall i :: 0 <= i < |digits| ==> '0' <= digits[i] <= '9'
    requires var n := Text.NumberOf(digits); n !in tab.invalidCharrefs && n !in tab.invalidCodepoints
    ensures var n := Text.NumberOf(digits);
            var text := if n < 0xD800 || 0xDFFF < n <= 0x10FFFF then [n as char] else "\U{FFFD}";
            Unescape("&#" + digits + ";" + r, tab) == text + Unescape(r, tab)
  {
    var s := "&#" + digits + ";" + r;
    assert s[1..][1..] == digits + (";" + r);
    SpanStop(digits, ";" + r, IsDigit, |s[1..]|);
    assert s[1..][1..][..|digits|] == digits;
    ParsedValue(digits);
    assert s[1..][|digits| + 1] == ';';
    assert MatchCharref(s[1..]) == Decimal(digits, |digits| + 2);
    assert s[|digits| + 3..] == r;
  }

  lemma UnescapeApostrophe(r: string, tab: Entities)
    requires Html5(tab)
    ensures Unescape("&#x27;" + r, tab) == "'" + Unescape(r, tab)
  {
    var s := "&#x27;" + r;
    assert s[1..][2..] == "27" + (";" + r);
    SpanStop("27", ";" + r, IsHexDigit, |s[1..]|);
    assert s[1..][2..][..2] == "27";
    assert "27"[1..] == "7" && "7"[1..] == [];
    assert ParseDigits("27", 16, 0) == ParseDigits("7", 16, 2) == ParseDigits([], 16, 39) == 39;
    assert MatchCharref(s[1..]) == Hex("27", 5);
    assert s[6..] == r;
  }

  /** The reader takes back exactly one escaped character, whatever follows it. */
  lemma UnescapeEscapedChar(c: char, r: string, tab: Entities)
    requires Html5(tab)
    ensures Unescape(EscapeChar(c) + r, tab) == [c] + Unescape(r, tab)
  {
    hide Unescape, MatchCharref, CharrefText;
    match c
    case '&' =>
      assert "amp" + ";" == "amp;";
      UnescapeNamed("amp", r, tab);
      assert "&amp;" + r == "&" + "amp" + ";" + r;
    case '<' =>
      assert "lt" + ";" == "lt;";
      UnescapeNamed("lt", r, tab);
      assert "&lt;" + r == "&" + "lt" + ";" + r;
    case '>' =>
      assert "gt" + ";" == "gt;";
      UnescapeNamed("gt", r, tab);
      assert "&gt;" + r == "&" + "gt" + ";" + r;
    case '"' =>
      assert "quot" + ";" == "quot;";
      UnescapeNamed("quot", r, tab);
      assert "&quot;" + r == "&" + "quot" + ";" + r;
    case '\'' => UnescapeApostrophe(r, tab);
    case _ => UnescapePlain(c, r, tab);
  }

  lemma UnescapePlain(c: char, r: string, tab: Entities)
    requires c != '&'
    ensures Unescape([c] + r, tab) == [c] + Unescape(r, tab)
  {
    assert ([c] + r)[1..] == r;
  }

  lemma {:induction false} UnescapeEscaped(s: string, r: string, tab: Entities)
    requires Html5(tab)
    ensures Unescape(Escape(s) + r, tab) == s + Unescape(r, tab)
  {
    hide Unescape, EscapeChar, Escape, Html5;
    if s == [] {
      EscapeNothing();
      assert [] + r == r && [] + Unescape(r, tab) == Unescape(r, tab);
    } else {
      EscapeStep(s);
      var a, b := EscapeChar(s[0]), Escape(s[1..]);
      UnescapeEscapedChar(s[0], b + r, tab);
      UnescapeEscaped(s[1..], r, tab);
      assert Escape(s) + r == a + (b + r);
      assert [s[0]] + (s[1..] + Unescape(r, tab)) == s + Unescape(r, tab);
    }
  }

  // ---------------------------------------------------------------------------
  // The two tag substitutions on printed pieces
  // ---------------------------------------------------------------------------

  predicate IsBlock(tag: string) {
    tag in {"br", "p", "div"}
  }

  lemma {:induction false} SpanToGtStop(a: string, r: string)
    requires '>' !in a
    ensures SpanToGt(a + ">" + r) == |a|
  {
    if a != [] {
      assert (a + ">" + r)[1..] == a[1..] + ">" + r;
      SpanToGtStop(a[1..], r);
    }
  }

  /** Among the kept tags the block pattern recognises br, p and div, and their whole name. */
  lemma KeptTagName(tag: string, r: string)
    requires tag in ALLOWED_TAGS
    ensures tag != [] && forall i :: 0 <= i < |tag| ==> 'a' <= tag[i] <= 'z'
    ensures BlockNameLength(tag + ">" + r) == if IsBlock(tag) then |tag| else 0
  {
    var s := tag + ">" + r;
    assert s[|tag|] == '>' && forall i :: 0 <= i < |tag| ==> s[i] == tag[i];
  }

  lemma {:induction false} BlocksPlain(a: string, r: string)
    requires '<' !in a
    ensures BlocksToNewlines(a + r) == a + BlocksToNewlines(r)
  {
    if a == [] {
      assert a + r == r;
    } else {
      assert (a + r)[1..] == a[1..] + r;
      BlocksPlain(a[1..], r);
    }
  }

  lemma BlocksStartTag(tag: string, r: string)
    requires tag in ALLOWED_TAGS
    ensures BlocksToNewlines("<" + tag + ">" + r) ==
            (if IsBlock(tag) then "\n" else "<" + tag + ">") + BlocksToNewlines(r)
  {
    hide ALLOWED_TAGS, IsBlock, BlocksToNewlines, BlockNameLength;
    KeptTagName(tag, r);
    if IsBlock(tag) {
      BlocksOneBlock(tag, r);
    } else {
      BlocksOther(tag + ">", r);
      assert tag + ">" + r == (tag + ">") + r;
      assert "<" + (tag + ">") + r == "<" + tag + ">" + r;
    }
  }

  lemma BlocksOneBlock(tag: string, r: string)
    requires 0 < |tag| == BlockNameLength(tag + ">" + r)
    ensures BlocksToNewlines("<" + tag + ">" + r) == "\n" + BlocksToNewlines(r)
  {
    hide BlockNameLength;
    var s := "<" + tag + ">" + r;
    assert s[1..] == tag + ">" + r;
    assert s[1 + |tag|..] == [] + ">" + r;
    SpanToGtStop([], r);
    assert BlockMatch(s) == |tag| + 2 && s[|tag| + 2..] == r;
  }

  /** A tag whose name is not a block name passes through. */
  lemma BlocksOther(body: string, r: string)
    requires '<' !in body && BlockNameLength(body + r) == 0
    ensures BlocksToNewlines("<" + body + r) == "<" + body + BlocksToNewlines(r)
  {
    hide BlockNameLength;
    var s := "<" + body + r;
    assert s[1..] == body + r;
    assert BlockMatch(s) == 0;
    assert BlocksToNewlines(s) == "<" + BlocksToNewlines(s[1..]);
    BlocksPlain(body, r);
  }

  lemma BlocksEndTag(tag: string, r: string)
    requires tag in ALLOWED_TAGS
    ensures BlocksToNewlines("</" + tag + ">" + r) == "</" + tag + ">" + BlocksToNewlines(r)
  {
    hide ALLOWED_TAGS, IsBlock, BlocksToNewlines;
    var body := "/" + tag + ">";
    KeptTagName(tag, r);
    assert (body + r)[0] == '/';
    assert BlockNameLength(body + r) == 0;
    BlocksOther(body, r);
    assert "<" + body + r == "</" + tag + ">" + r;
    assert "<" + body == "</" + tag + ">";
  }

  lemma {:induction false} StripPlain(a: string, r: string)
    requires '<' !in a
    ensures StripTags(a + r) == a + StripTags(r)
  {
    if a == [] {
      assert a + r == r;
    } else {
      assert (a + r)[1..] == a[1..] + r;
      StripPlain(a[1..], r);
    }
  }

  lemma StripOneTag(body: string, r: string)
    requires body != [] && '>' !in body
    ensures StripTags("<" + body + ">" + r) == StripTags(r)
  {
    var s := "<" + body + ">" + r;
    assert s[1..] == body + ">" + r;
    SpanToGtStop(body, r);
    assert TagMatch(s) == |body| + 2 && s[|body| + 2..] == r;
  }

  // ---------------------------------------------------------------------------
  // Main results
  // ---------------------------------------------------------------------------

  /** The text of one event: its data, or one newline for a kept br, p or div start tag. */
  function TextOf(e: Event): string {
    match e
    case StartTag(t, _) => if IsBlock(t) then "\n" else ""
    case StartEndTag(t, _) => if IsBlock(t) then "\n" else ""
    case EndTag(_) => ""
    case Data(d) => d
    case Ignored(_) => ""
  }

  function PlainText(events: seq<Event>): string {
    if events == [] then [] else TextOf(events[0]) + PlainText(events[1..])
  }

  /** One event's piece, after the block-tag pass. */
  function BlocklessPiece(e: Event): string {
    if (e.StartTag? || e.StartEndTag?) && IsBlock(e.tag) then "\n" else Piece(e)
  }

  function Blockless(events: seq<Event>): string {
    if events == [] then [] else BlocklessPiece(events[0]) + Blockless(events[1..])
  }

  /** One event's piece after both passes: escaped text and newlines only. */
  function Tagless(events: seq<Event>): string {
    if events == [] then []
    else (if events[0].Data? then Escape(events[0].text) else TextOf(events[0])) + Tagless(events[1..])
  }

  lemma BlocksOfPiece(e: Event, r: string)
    ensures BlocksToNewlines(Piece(e) + r) == BlocklessPiece(e) + BlocksToNewlines(r)
  {
    hide BlocksToNewlines, Escape;
    if e.Data? {
      EscapeIsInert(e.text);
      BlocksPlain(Escape(e.text), r);
    } else if Piece(e) == "" {
      assert BlocklessPiece(e) == "" && Piece(e) + r == r;
    } else if e.EndTag? {
      BlocksEndTag(e.tag, r);
    } else {
      BlocksStartTag(e.tag, r);
    }
  }

  lemma {:induction false} BlocksOfSanitized(events: seq<Event>)
    ensures BlocksToNewlines(Sanitized(events)) == Blockless(events)
  {
    if events != [] {
      BlocksOfPiece(events[0], Sanitized(events[1..]));
      BlocksOfSanitized(events[1..]);
    }
  }

  lemma StripOfPiece(e: Event, r: string)
    ensures StripTags(BlocklessPiece(e) + r) == (if e.Data? then Escape(e.text) else TextOf(e)) + StripTags(r)
  {
    if e.Data? {
      EscapeIsInert(e.text);
      StripPlain(Escape(e.text), r);
    } else if BlocklessPiece(e) == "" {
      assert BlocklessPiece(e) + r == r && TextOf(e) == "";
    } else {
      hide StripTags, Escape;
      StripOfKeptTag(e, r);
    }
  }

  lemma StripOfKeptTag(e: Event, r: string)
    requires (e.StartTag? || e.StartEndTag? || e.EndTag?) && e.tag in ALLOWED_TAGS
    ensures StripTags(BlocklessPiece(e) + r) == TextOf(e) + StripTags(r)
  {
    hide ALLOWED_TAGS, IsBlock, StripTags;
    KeptTagName(e.tag, r);
    if e.EndTag? {
      StripOneTag("/" + e.tag, r);
      assert "<" + ("/" + e.tag) + ">" + r == "</" + e.tag + ">" + r;
      assert e.tag in VOID_TAGS ==> BlocklessPiece(e) + r == r;
    } else if IsBlock(e.tag) {
      StripPlain("\n", r);
    } else {
      StripOneTag(e.tag, r);
    }
  }

  lemma {:induction false} StripOfBlockless(events: seq<Event>)
    ensures StripTags(Blockless(events)) == Tagless(events)
  {
    if events != [] {
      StripOfPiece(events[0], Blockless(events[1..]));
      StripOfBlockless(events[1..]);
    }
  }

  lemma UnescapeNothing(tab: Entities)
    ensures Unescape([], tab) == []
  {
  }

  lemma {:induction false} UnescapeOfTagless(events: seq<Event>, tab: Entities)
    requires Html5(tab)
    ensures Unescape(Tagless(events), tab) == PlainText(events)
  {
    hide Unescape, Escape;
    if events == [] {
      UnescapeNothing(tab);
    } else {
      var r := Tagless(events[1..]);
      UnescapeOfTagless(events[1..], tab);
      if events[0].Data? {
        UnescapeEscaped(events[0].text, r, tab);
      } else if TextOf(events[0]) == "\n" {
        UnescapeEscapedChar('\n', r, tab);
      } else {
        assert TextOf(events[0]) + r == r;
      }
    }
  }

  /** Main result: the stripper undoes the printer. What it reads back is exactly the event
      text in order, with one newline for every kept br, p or div start tag. */
  lemma {:induction false} StripUndoesSanitize(events: seq<Event>, tab: Entities)
    requires Html5(tab)
    ensures StripMarkup(Sanitized(events), tab) == PlainText(events)
  {
    BlocksOfSanitized(events);
    StripOfBlockless(events);
    UnescapeOfTagless(events, tab);
  }

  /** Main result: the stored word count is the number of words in the text the parser reported,
      after composition and the control-character filter. */
  lemma WordCountOfSanitized(events: seq<Event>, tab: Entities, nfc: string -> string, other: char -> bool)
    requires Html5(tab)
    ensures Text.CountWords(StripHtmlTags(Sanitized(events), tab, nfc, other))
         == Text.CountWords(Text.Filter(nfc(PlainText(events)), other))
  {
    StripUndoesSanitize(events, tab);
    Text.NormalizeKeepsWords(nfc(PlainText(events)), other);
  }

  /** `s` starts with a whitelisted tag, which carries no attribute. */
  predicate StartsWithTag(s: string) {
    exists t :: t in ALLOWED_TAGS && ("<" + t + ">" <= s || "</" + t + ">" <= s)
  }

  /** Every '<' opens a bare whitelisted tag, and no quote character is left. */
  predicate OnlyWhitelistedMarkup(s: string) {
    && (forall i :: 0 <= i < |s| && s[i] == '<' ==> StartsWithTag(s[i..]))
    && (forall i :: 0 <= i < |s| ==> s[i] !in "\"'")
  }

  lemma PrependInert(a: string, r: string)
    requires OnlyWhitelistedMarkup(r)
    requires forall i :: 0 <= i < |a| ==> a[i] !in "<\"'"
    ensures OnlyWhitelistedMarkup(a + r)
  {
    forall i | 0 <= i < |a + r| && (a + r)[i] == '<'
      ensures StartsWithTag((a + r)[i..])
    {
      assert (a + r)[i..] == r[i - |a|..];
    }
  }

  lemma StartsBare(open: string, tag: string, r: string)
    requires tag in ALLOWED_TAGS && open in {"<", "</"}
    ensures StartsWithTag(open + tag + ">" + r)
  {
    hide ALLOWED_TAGS;
    assert open + tag + ">" <= open + tag + ">" + r;
  }

  lemma PrependTag(open: string, tag: string, r: string)
    requires OnlyWhitelistedMarkup(r) && tag in ALLOWED_TAGS && open in {"<", "</"}
    ensures OnlyWhitelistedMarkup(open + tag + ">" + r)
  {
    hide ALLOWED_TAGS, StartsWithTag;
    KeptTagName(tag, r);
    StartsBare(open, tag, r);
    var body := open[1..] + tag + ">";
    PrependInert(body, r);
    var s := open + tag + ">" + r;
    assert s[1..] == body + r && s[0] == '<';
    assert s[0..] == s;
    forall i | 1 <= i < |s| && s[i] == '<'
      ensures StartsWithTag(s[i..])
    {
      assert s[i..] == (body + r)[i - 1..];
    }
    assert forall i :: 1 <= i < |s| ==> s[i] == (body + r)[i - 1];
  }

  /** Main result: whatever the document, only bare whitelisted tags are printed. */
  lemma {:induction false} SanitizedIsSafe(events: seq<Event>)
    ensures OnlyWhitelistedMarkup(Sanitized(events))
  {
    if events != [] {
      var e, r := events[0], Sanitized(events[1..]);
      SanitizedIsSafe(events[1..]);
      if e.Data? {
        EscapeIsInert(e.text);
        assert forall c :: c in Escape(e.text) ==> c !in "<>\"'" && (c !in "<\"'");
        PrependInert(Escape(e.text), r);
      } else if e.Ignored? || Piece(e) == "" {
        assert Piece(e) + r == r;
      } else {
        PrependTag(if e.EndTag? then "</" else "<", e.tag, r);
      }
    }
  }

  // ---------------------------------------------------------------------------
  // Reading the output back
  // ---------------------------------------------------------------------------

  /** What a reader of the output meets: a tag by its name and direction, or a character of text. */
  datatype Token = Tag(name: string, closing: bool) | Raw(c: char)

  /** Length of the text up to the first '>', or of all of it. */
  function UpToGt(s: string): (n: nat)
    ensures n <= |s|
  {
    if s == [] || s[0] == '>' then 0 else 1 + UpToGt(s[1..])
  }

  function TagToken(body: string): Token {
    if body != [] && body[0] == '/' then Tag(body[1..], true) else Tag(body, false)
  }

  /** Scans a text: `<...>` is a tag, any other character stands for itself. */
  function Tokens(s: string): seq<Token>
    decreases |s|
  {
    if s == [] then []
    else if s[0] != '<' then [Raw(s[0])] + Tokens(s[1..])
    else
      var n := UpToGt(s[1..]);
      [TagToken(s[1..][..n])] + Tokens(if 1 + n < |s| then s[1 + n + 1..] else [])
  }

  predicate IsKept(tag: string) {
    || tag == "p" || tag == "b" || tag == "i" || tag == "u" || tag == "em"
    || tag == "strong" || tag == "br" || tag == "span" || tag == "div"
  }

  function RawText(s: string): seq<Token> {
    if s == [] then [] else [Raw(s[0])] + RawText(s[1..])
  }

  /** The text of a data event, with each character escaped by itself. */
  function EscapedText(s: string): seq<Token> {
    if s == [] then [] else RawText(EscapeChar(s[0])) + EscapedText(s[1..])
  }

  /** What the events should leave: kept start and self-closing tags, kept end tags other than of br,
      and the text, in order. */
  function Expected(events: seq<Event>): seq<Token> {
    if events == [] then []
    else
      var here := match events[0]
        case StartTag(tag, _) => if IsKept(tag) then [Tag(tag, false)] else []
        case StartEndTag(tag, _) => if IsKept(tag) then [Tag(tag, false)] else []
        case EndTag(tag) => if IsKept(tag) && tag != "br" then [Tag(tag, true)] else []
        case Data(text) => EscapedText(text)
        case Ignored(_) => [];
      here + Expected(events[1..])
  }

  lemma {:induction false} TokensOfText(a: string, r: string)
    requires '<' !in a
    ensures Tokens(a + r) == RawText(a) + Tokens(r)
  {
    if a == [] {
      assert a + r == r;
    } else {
      assert (a + r)[0] == a[0] && a[0] in a && (a + r)[1..] == a[1..] + r;
      TokensOfText(a[1..], r);
    }
  }

  lemma {:induction false} UpToGtStop(body: string, r: string)
    requires '>' !in body
    ensures UpToGt(body + ">" + r) == |body|
  {
    var s := body + ">" + r;
    if body != [] {
      assert s[0] == body[0] && body[0] in body;
      assert s[1..] == body[1..] + ">" + r;
      UpToGtStop(body[1..], r);
    }
  }

  lemma TokensOfTag(body: string, r: string)
    requires '>' !in body
    ensures Tokens("<" + body + ">" + r) == [TagToken(body)] + Tokens(r)
  {
    var s := "<" + body + ">" + r;
    assert s[1..] == body + ">" + r;
    UpToGtStop(body, r);
    assert s[1..][..|body|] == body && s[1 + |body| + 1..] == r;
  }

  lemma {:induction false} RawTextAppend(a: string, b: string)
    ensures RawText(a + b) == RawText(a) + RawText(b)
  {
    if a == [] {
      assert a + b == b;
    } else {
      assert (a + b)[1..] == a[1..] + b;
      RawTextAppend(a[1..], b);
    }
  }

  lemma {:induction false} RawTextOfEscape(s: string)
    ensures RawText(Escape(s)) == EscapedText(s)
  {
    if s == [] {
      EscapeNothing();
    } else {
      EscapeStep(s);
      RawTextAppend(EscapeChar(s[0]), Escape(s[1..]));
      RawTextOfEscape(s[1..]);
    }
  }

  lemma WhitelistIsKept(tag: string)
    ensures tag in ALLOWED_TAGS <==> IsKept(tag)
    ensures tag in VOID_TAGS <==> tag == "br"
    ensures IsKept(tag) ==> tag != [] && '>' !in tag && tag[0] != '/'
  {
  }

  lemma TokensOfData(text: string, r: string)
    ensures Tokens(Escape(text) + r) == EscapedText(text) + Tokens(r)
  {
    hide Tokens, Escape;
    EscapeIsInert(text);
    RawTextOfEscape(text);
    TokensOfText(Escape(text), r);
  }

  lemma TokensOfClosingTag(tag: string, r: string)
    requires '>' !in tag
    ensures Tokens(("</" + tag + ">") + r) == [Tag(tag, true)] + Tokens(r)
  {
    hide Tokens;
    TokensOfTag("/" + tag, r);
    assert ("/" + tag)[1..] == tag;
    assert "<" + ("/" + tag) + ">" + r == ("</" + tag + ">") + r;
  }

  lemma TokensOfOpeningTag(tag: string, r: string)
    requires '>' !in tag && tag != [] && tag[0] != '/'
    ensures Tokens(("<" + tag + ">") + r) == [Tag(tag, false)] + Tokens(r)
  {
    hide Tokens;
    TokensOfTag(tag, r);
    assert "<" + tag + ">" + r == ("<" + tag + ">") + r;
  }

  lemma TokensOfPiece(e: Event, r: string)
    ensures Tokens(Piece(e) + r) == Expected([e]) + Tokens(r)
  {
    hide Tokens, Escape, EscapedText, ALLOWED_TAGS, VOID_TAGS, IsKept;
    assert [e][1..] == [] && Expected([]) == [];
    assert "" + r == r;
    if e.Data? {
      TokensOfData(e.text, r);
      assert Expected([e]) == EscapedText(e.text);
    } else if !e.Ignored? {
      WhitelistIsKept(e.tag);
      if e.EndTag? && IsKept(e.tag) && e.tag != "br" {
        TokensOfClosingTag(e.tag, r);
      } else if !e.EndTag? && IsKept(e.tag) {
        TokensOfOpeningTag(e.tag, r);
      }
    }
  }

  lemma ExpectedStep(events: seq<Event>)
    requires events != []
    ensures Expected(events) == Expected([events[0]]) + Expected(events[1..])
  {
    assert [events[0]][1..] == [] && Expected([]) == [];
  }

  /** Main result: reading the output back gives every kept tag by name and direction, and the escaped text,
      in the order of the events, and nothing else. */
  lemma {:induction false} SanitizedReadsBack(events: seq<Event>)
    ensures Tokens(Sanitized(events)) == Expected(events)
  {
    if events != [] {
      hide Piece, Tokens, Expected;
      SanitizedReadsBack(events[1..]);
      TokensOfPiece(events[0], Sanitized(events[1..]));
      ExpectedStep(events);
    }
  }

  // ---------------------------------------------------------------------------
  // The stripper on any markup
  // ---------------------------------------------------------------------------

  predicate StartsWithName(body: string, name: string)
    requires forall i :: 0 <= i < |name| ==> 'a' <= name[i] <= 'z'
  {
    |name| <= |body| && forall i :: 0 <= i < |name| ==> CaseEq(body[i], name[i])
  }

  /** The tag body begins with the name of a block, in any case. */
  predicate IsBlockBody(body: string) {
    || StartsWithName(body, "br") || StartsWithName(body, "p") || StartsWithName(body, "div")
    || StartsWithName(body, "li")
    || (StartsWithName(body, "h") && |body| >= 2 && body[1] in "123456")
  }

  function Stripped(s: string): string {
    StripTags(BlocksToNewlines(s))
  }

  lemma BlockBodyLength(body: string, r: string)
    requires '>' !in body
    ensures BlockNameLength(body + ">" + r) <= |body|
    ensures BlockNameLength(body + ">" + r) > 0 <==> IsBlockBody(body)
  {
    var s := body + ">" + r;
    assert forall i :: 0 <= i < |body| ==> s[i] == body[i];
    assert s[|body|] == '>';
  }

  lemma BlocksBlockBody(body: string, r: string)
    requires '>' !in body && IsBlockBody(body)
    ensures BlocksToNewlines("<" + body + ">" + r) == "\n" + BlocksToNewlines(r)
  {
    BlockBodyLength(body, r);
    var s := "<" + body + ">" + r;
    var k := BlockNameLength(body + ">" + r);
    hide BlockNameLength, IsBlockBody;
    assert s[1..] == body + ">" + r;
    assert s[1 + k..] == body[k..] + ">" + r;
    SpanToGtStop(body[k..], r);
    assert BlockMatch(s) == |body| + 2 && s[|body| + 2..] == r;
  }

  /** Any tag goes, and a block's leaves one newline. */
  lemma StripsAnyTag(body: string, r: string)
    requires body != [] && '<' !in body && '>' !in body
    ensures Stripped("<" + body + ">" + r) == (if IsBlockBody(body) then "\n" else "") + Stripped(r)
  {
    hide BlockNameLength, IsBlockBody, BlocksToNewlines, StripTags;
    if IsBlockBody(body) {
      BlocksBlockBody(body, r);
      StripPlain("\n", BlocksToNewlines(r));
    } else {
      BlockBodyLength(body, r);
      assert (body + ">") + r == body + ">" + r && "<" + (body + ">") + r == "<" + body + ">" + r;
      BlocksOther(body + ">", r);
      assert "<" + (body + ">") + BlocksToNewlines(r) == "<" + body + ">" + BlocksToNewlines(r);
      StripOneTag(body, BlocksToNewlines(r));
      assert "" + Stripped(r) == Stripped(r);
    }
  }

  /** Text outside tags stays. */
  lemma StripsNoText(a: string, r: string)
    requires '<' !in a
    ensures Stripped(a + r) == a + Stripped(r)
  {
    BlocksPlain(a, r);
    StripPlain(a, BlocksToNewlines(r));
  }
}
