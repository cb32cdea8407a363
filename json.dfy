/**
 * The part of JSON (RFC 8259) that the landing page's configuration uses: string
 * literals, the literals `true` and `false`, and one flat object of such values.
 * Serialisation follows ECMAScript's `JSON.stringify` without indentation (the
 * QuoteJSONString operation of ECMA-262); parsing is the consumer's `JSON.parse`.
 */
module Json {
  import opened Wrappers
  import opened Hex

  datatype Value = JString(s: string) | JBool(b: bool)

  /** One `"key":value` pair of an object, in the order it is written. */
  datatype Member = Member(key: string, value: Value)

  /** A character that may not appear raw inside a JSON string literal. */
  predicate NeedsEscape(c: char) {
    c == '"' || c == '\\' || c < ' '
  }

  function LowerHexDigit(n: int): char
    requires 0 <= n < 16
  {
    "0123456789abcdef"[n]
  }

  /**
   * How `JSON.stringify` writes one character inside a string literal: the short
   * escapes for backspace, tab, line feed, form feed, carriage return, quote and
   * backslash, `\u00xx` in lower-case hexadecimal for the other control characters,
   * and everything else as it is.
   */
  function QuoteChar(c: char): (s: string)
    ensures NeedsEscape(c) <==> |s| > 1
    ensures !NeedsEscape(c) ==> s == [c]
  {
    if c == '\U{8}' then "\\b"
    else if c == '\t' then "\\t"
    else if c == '\n' then "\\n"
    else if c == '\U{C}' then "\\f"
    else if c == '\r' then "\\r"
    else if c == '"' then "\\\""
    else if c == '\\' then "\\\\"
    else if c < ' ' then "\\u00" + [LowerHexDigit(c as int / 16), LowerHexDigit(c as int % 16)]
    else [c]
  }

  function QuoteBody(s: string): (r: string)
    ensures |r| >= |s|
  {
    if s == [] then [] else QuoteChar(s[0]) + QuoteBody(s[1..])
  }

  /** The body is the string itself exactly when no character of it needs an escape. */
  lemma {:induction false} QuoteBodyIdentity(s: string)
    ensures QuoteBody(s) == s <==> forall i :: 0 <= i < |s| ==> !NeedsEscape(s[i])
  {
    if s != [] {
      QuoteBodyIdentity(s[1..]);
      if QuoteBody(s) == s {
        var q := QuoteChar(s[0]);
        assert |QuoteBody(s[1..])| >= |s| - 1;
        assert |q| == 1 && QuoteBody(s[1..]) == s[1..];
      }
      if forall i :: 0 <= i < |s| ==> !NeedsEscape(s[i]) {
        assert forall i :: 0 <= i < |s[1..]| ==> !NeedsEscape(s[1..][i]) by {
          forall i | 0 <= i < |s[1..]| ensures !NeedsEscape(s[1..][i]) {
            assert s[1..][i] == s[i + 1];
          }
        }
        assert !NeedsEscape(s[0]);
        assert [s[0]] + s[1..] == s;
      }
    }
  }

  /** `JSON.stringify` of a string: the escaped characters between a pair of double quotes. */
  function Quote(s: string): string {
    "\"" + QuoteBody(s) + "\""
  }

  /**
   * Quoting only adds the pair of double quotes exactly when no character of `s`
   * is a quote, a backslash or a control character.
   */
  lemma QuoteIsTrivialIff(s: string)
    ensures Quote(s) == "\"" + s + "\"" <==> forall i :: 0 <= i < |s| ==> !NeedsEscape(s[i])
  {
    QuoteBodyIdentity(s);
    if Quote(s) == "\"" + s + "\"" {
      assert QuoteBody(s) == Quote(s)[1..|Quote(s)| - 1];
    }
  }

  /** The character after a backslash in a short escape, and what it stands for. */
  function ShortEscape(c: char): Option<char> {
    if c == '"' then Some('"')
    else if c == '\\' then Some('\\')
    else if c == '/' then Some('/')
    else if c == 'b' then Some('\U{8}')
    else if c == 'f' then Some('\U{C}')
    else if c == 'n' then Some('\n')
    else if c == 'r' then Some('\r')
    else if c == 't' then Some('\t')
    else None
  }

  /** The code unit of four hexadecimal digits. */
  function HexQuad(s: string): (r: Option<int>)
    requires |s| == 4
    ensures r.Some? ==> 0 <= r.value < 0x10000
  {
    match (HexValue(s[0]), HexValue(s[1]), HexValue(s[2]), HexValue(s[3]))
    case (Some(a), Some(b), Some(c), Some(d)) => Some(((a * 16 + b) * 16 + c) * 16 + d)
    case _ => None
  }

  /**
   * Reads one character of a string literal's body from the front of `s`, which
   * does not start with the closing quote: the character and how many were consumed.
   */
  function ReadChar(s: string): (r: Option<(char, nat)>)
    requires |s| > 0
    ensures r.Some? ==> 1 <= r.value.1 <= |s|
  {
    if s[0] == '\\' then
      if |s| < 2 then None
      else if s[1] == 'u' then
        if |s| < 6 then None
        else match HexQuad(s[2..6])
          case None => None
          case Some(u) =>
            if 0xD800 <= u < 0xE000 then None else Some((u as char, 6))
      else match ShortEscape(s[1])
        case None => None
        case Some(c) => Some((c, 2))
    else if s[0] < ' ' then None
    else Some((s[0], 1))
  }

  /**
   * Reads the body of a string literal up to and including its closing quote: the
   * characters read and the number of characters consumed.
   */
  function ParseStringBody(s: string): (r: Option<(string, nat)>)
    ensures r.Some? ==> 1 <= r.value.1 <= |s|
    decreases |s|
  {
    if s == [] then None
    else if s[0] == '"' then Some(([], 1))
    else match ReadChar(s)
      case None => None
      case Some((c, k)) => PrependChar(c, k, ParseStringBody(s[k..]))
  }

  /** Reads a string literal from the front of `s`: its value and its length. */
  function ParseString(s: string): (r: Option<(string, nat)>)
    ensures r.Some? ==> 2 <= r.value.1 <= |s|
  {
    if s == [] || s[0] != '"' then None
    else match ParseStringBody(s[1..])
      case None => None
      case Some((t, k)) => Some((t, k + 1))
  }

  lemma ReadQuotedChar(c: char, rest: string)
    ensures ReadChar(QuoteChar(c) + rest) == Some((c, |QuoteChar(c)|))
  {
    var s := QuoteChar(c) + rest;
    if c < ' ' && !(c in "\U{8}\t\n\U{C}\r") {
      var hi, lo := c as int / 16, c as int % 16;
      assert s[..6] == QuoteChar(c);
      assert s[2..6] == ['0', '0', LowerHexDigit(hi), LowerHexDigit(lo)];
      assert HexValue(LowerHexDigit(hi)) == Some(hi);
      assert HexValue(LowerHexDigit(lo)) == Some(lo);
    }
  }

  function PrependChar(c: char, k: nat, r: Option<(string, nat)>): Option<(string, nat)> {
    match r
    case None => None
    case Some((t, m)) => Some(([c] + t, k + m))
  }

  lemma ParseAfterQuotedChar(c: char, t: string)
    ensures ParseStringBody(QuoteChar(c) + t) == PrependChar(c, |QuoteChar(c)|, ParseStringBody(t))
  {
    var q := QuoteChar(c);
    Split(q, t);
    assert q[0] != '"';
    ReadQuotedChar(c, t);
    BodyStep(q + t, c, |q|);
  }

  /** One character read ahead of the closing quote. */
  lemma BodyStep(s: string, c: char, k: nat)
    requires |s| > 0 && s[0] != '"' && ReadChar(s) == Some((c, k))
    ensures ParseStringBody(s) == PrependChar(c, k, ParseStringBody(s[k..]))
  {
  }

  lemma Split(q: string, t: string)
    requires |q| > 0
    ensures (q + t)[0] == q[0] && (q + t)[|q|..] == t
  {
  }

  /** The quoted body of `s`, the closing quote and then `rest`, built one character at a time. */
  function Quoted(s: string, rest: string): string {
    if s == [] then "\"" + rest else QuoteChar(s[0]) + Quoted(s[1..], rest)
  }

  lemma {:induction false} QuotedIsQuoteBody(s: string, rest: string)
    ensures Quoted(s, rest) == QuoteBody(s) + "\"" + rest
  {
    if s != [] {
      QuotedIsQuoteBody(s[1..], rest);
      Regroup(QuoteChar(s[0]), QuoteBody(s[1..]), "\"", rest);
    }
  }

  lemma Regroup(a: string, b: string, c: string, d: string)
    ensures a + (b + c + d) == (a + b) + c + d
  {
  }

  /** A quoted body followed by the closing quote reads back, whatever follows it. */
  lemma {:induction false} ParseQuoted(s: string, rest: string)
    ensures ParsesBack(s, rest)
  {
    if s == [] {
      ClosingQuote(Quoted(s, rest));
    } else {
      ParseQuoted(s[1..], rest);
      ParseQuotedCons(s, rest);
    }
  }

  /** Reading `Quoted(s, rest)` gives `s` and stops right before `rest`. */
  predicate ParsesBack(s: string, rest: string) {
    var r := ParseStringBody(Quoted(s, rest));
    r.Some? && r.value.0 == s && r.value.1 + |rest| == |Quoted(s, rest)|
  }

  lemma ParseQuotedCons(s: string, rest: string)
    ensures s != [] && ParsesBack(s[1..], rest) ==> ParsesBack(s, rest)
  {
    if s != [] && ParsesBack(s[1..], rest) {
      var t := Quoted(s[1..], rest);
      ParseAfterQuotedChar(s[0], t);
      ParsedWhole(QuoteChar(s[0]) + t, s, |QuoteChar(s[0])|, ParseStringBody(t).value.1);
    }
  }

  lemma ClosingQuote(u: string)
    requires |u| > 0 && u[0] == '"'
    ensures ParseStringBody(u) == Some(([], 1))
  {
  }

  /**
   * Reading the first character of `whole` and then the rest gives `whole`; the
   * sequence identity stays inside this lemma.
   */
  lemma ParsedWhole(x: string, whole: string, k: nat, m: nat)
    ensures whole != [] && ParseStringBody(x) == Some(([whole[0]] + whole[1..], k + m))
        ==> ParseStringBody(x) == Some((whole, k + m))
  {
    if whole != [] {
      assert [whole[0]] + whole[1..] == whole;
    }
  }

  /** `JSON.parse` reads back exactly what `JSON.stringify` wrote, and stops at its end. */
  lemma ParseQuote(s: string, rest: string)
    ensures ParseString(Quote(s) + rest) == Some((s, |Quote(s)|))
  {
    var u := QuoteBody(s) + "\"" + rest;
    Regroup("\"", QuoteBody(s), "\"", rest);
    QuotedIsQuoteBody(s, rest);
    ParseQuoted(s, rest);
    OpenQuote(u);
  }

  /** A string literal is its opening quote and then its body. */
  lemma OpenQuote(u: string)
    ensures ParseString("\"" + u) == PrependNothing(ParseStringBody(u))
  {
    assert ("\"" + u)[1..] == u;
  }

  /** The body's result, counting the opening quote as read. */
  function PrependNothing(r: Option<(string, nat)>): Option<(string, nat)> {
    match r
    case None => None
    case Some((t, k)) => Some((t, k + 1))
  }

  function ValueText(v: Value): string {
    match v
    case JString(s) => Quote(s)
    case JBool(b) => if b then "true" else "false"
  }

  function MemberText(m: Member): string {
    Quote(m.key) + ":" + ValueText(m.value)
  }

  /** The members separated by commas. */
  function MembersText(ms: seq<Member>): string {
    if ms == [] then []
    else if |ms| == 1 then MemberText(ms[0])
    else MemberText(ms[0]) + "," + MembersText(ms[1..])
  }

  /** `JSON.stringify` of an object whose members are `ms`, in that order. */
  function ObjectText(ms: seq<Member>): string {
    "{" + MembersText(ms) + "}"
  }

  function ParseValue(s: string): (r: Option<(Value, nat)>)
    ensures r.Some? ==> 1 <= r.value.1 <= |s|
  {
    if |s| > 0 && s[0] == '"' then
      match ParseString(s)
      case None => None
      case Some((t, k)) => Some((JString(t), k))
    else if |s| >= 4 && s[..4] == "true" then Some((JBool(true), 4))
    else if |s| >= 5 && s[..5] == "false" then Some((JBool(false), 5))
    else None
  }

  /** Reads one `"key":value` pair from the front of `s`, and how many characters it took. */
  function ParseMember(s: string): (r: Option<(Member, nat)>)
    ensures r.Some? ==> 4 <= r.value.1 <= |s|
  {
    match ParseString(s)
    case None => None
    case Some((key, k)) =>
      if k >= |s| || s[k] != ':' then None
      else match ParseValue(s[k + 1..])
        case None => None
        case Some((v, n)) => Some((Member(key, v), k + 1 + n))
  }

  /**
   * Reads `"key":value` pairs separated by commas up to the closing brace, which
   * must end the text.
   */
  function ParseMembers(s: string): Option<seq<Member>>
    decreases |s|, 1
  {
    var r := ParseMember(s);
    if r.None? then None else MembersAfter(s, r.value.0, r.value.1)
  }

  /** What follows a member `m` that ended at `j`: the closing brace, or a comma and more members. */
  function MembersAfter(s: string, m: Member, j: nat): Option<seq<Member>>
    decreases |s|, 0
  {
    if j >= |s| then None
    else if s[j] == '}' then (if j + 1 == |s| then Some([m]) else None)
    else if s[j] == ',' then PrependMember(m, ParseMembers(s[j + 1..]))
    else None
  }

  /** `JSON.parse` of a text holding one flat object; `None` where it would throw. */
  function ParseObject(s: string): Option<seq<Member>> {
    if s == "{}" then Some([])
    else if |s| == 0 || s[0] != '{' then None
    else ParseMembers(s[1..])
  }

  lemma ParseValueText(v: Value, rest: string)
    ensures ParseValue(ValueText(v) + rest) == Some((v, |ValueText(v)|))
  {
    var s := ValueText(v) + rest;
    match v
    case JString(t) =>
      ParseQuote(t, rest);
    case JBool(b) =>
      if b { assert s[..4] == "true"; } else { assert s[..5] == "false"; }
  }

  /** A written member reads back, whatever follows it. */
  lemma ParseMemberText(m: Member, tail: string)
    ensures ParseMember(MemberText(m) + tail) == Some((m, |MemberText(m)|))
  {
    var q, u := Quote(m.key), ValueText(m.value) + tail;
    MemberTextParts(m, tail);
    ParseQuote(m.key, ":" + u);
    ParseValueText(m.value, tail);
    ColonSplit(q, u);
    MemberFrom(q + (":" + u), m.key, |q|, m.value, |ValueText(m.value)|);
  }

  lemma MemberTextParts(m: Member, tail: string)
    ensures MemberText(m) + tail == Quote(m.key) + (":" + (ValueText(m.value) + tail))
    ensures |MemberText(m)| == |Quote(m.key)| + 1 + |ValueText(m.value)|
  {
  }

  lemma ColonSplit(q: string, u: string)
    ensures |q| < |q + (":" + u)| && (q + (":" + u))[|q|] == ':'
    ensures (q + (":" + u))[|q| + 1..] == u
  {
    assert (q + (":" + u))[|q| + 1..] == u;
  }

  /** A key, a colon and a value make a member. */
  lemma MemberFrom(s: string, key: string, k: nat, v: Value, n: nat)
    requires ParseString(s) == Some((key, k)) && k < |s| && s[k] == ':'
    requires ParseValue(s[k + 1..]) == Some((v, n))
    ensures ParseMember(s) == Some((Member(key, v), k + 1 + n))
  {
  }

  function PrependMember(m: Member, r: Option<seq<Member>>): Option<seq<Member>> {
    match r
    case None => None
    case Some(more) => Some([m] + more)
  }

  lemma ParseLastMember(m: Member)
    ensures ParseMembers(MemberText(m) + "}") == Some([m])
  {
    ParseMemberText(m, "}");
    MembersEndAfter(MemberText(m), m);
  }

  lemma MembersEndAfter(x: string, m: Member)
    requires ParseMember(x + "}") == Some((m, |x|))
    ensures ParseMembers(x + "}") == Some([m])
  {
    assert (x + "}")[|x|] == '}';
  }

  lemma ParseMemberThenComma(m: Member, more: string)
    ensures ParseMembers(MemberText(m) + ("," + more)) == PrependMember(m, ParseMembers(more))
  {
    ParseMemberText(m, "," + more);
    MembersGoOnAfter(MemberText(m), m, more);
  }

  lemma MembersGoOnAfter(x: string, m: Member, more: string)
    requires ParseMember(x + ("," + more)) == Some((m, |x|))
    ensures ParseMembers(x + ("," + more)) == PrependMember(m, ParseMembers(more))
  {
    AfterComma(x, more);
    MembersGoOn(x + ("," + more), m, |x|);
  }

  lemma AfterComma(x: string, more: string)
    ensures |x| < |x + ("," + more)| && (x + ("," + more))[|x|] == ','
    ensures (x + ("," + more))[|x| + 1..] == more
  {
  }

  /** After a member and a comma, the members go on. */
  lemma MembersGoOn(s: string, m: Member, j: nat)
    requires ParseMember(s) == Some((m, j)) && j < |s| && s[j] == ','
    ensures ParseMembers(s) == PrependMember(m, ParseMembers(s[j + 1..]))
  {
    assert ParseMembers(s) == MembersAfter(s, m, j);
  }

  lemma {:induction false} ParseMembersText(ms: seq<Member>)
    requires ms != []
    ensures ParseMembers(MembersText(ms) + "}") == Some(ms)
  {
    if |ms| == 1 {
      ParseLastMember(ms[0]);
      assert ms == [ms[0]];
    } else {
      assert MembersText(ms) + "}" == MemberText(ms[0]) + ("," + (MembersText(ms[1..]) + "}"));
      ParseMemberThenComma(ms[0], MembersText(ms[1..]) + "}");
      ParseMembersText(ms[1..]);
      assert [ms[0]] + ms[1..] == ms;
    }
  }

  /** `JSON.parse(JSON.stringify(o))` gives back the members of `o`, in their order. */
  lemma ParseObjectText(ms: seq<Member>)
    ensures ParseObject(ObjectText(ms)) == Some(ms)
  {
    if ms != [] {
      var body := MembersText(ms) + "}";
      assert ObjectText(ms) == "{" + body;
      assert MemberText(ms[0])[0] == '"';
      assert body[0] == '"';
      ObjectFrom(body);
      ParseMembersText(ms);
    }
  }

  /** An object that does not close at once holds members. */
  lemma ObjectFrom(body: string)
    requires |body| > 0 && body[0] != '}'
    ensures ParseObject("{" + body) == ParseMembers(body)
  {
    assert ("{" + body)[1] == body[0];
    assert ("{" + body)[1..] == body;
  }

  /** The value of property `key` in the object `JSON.parse` builds: the last member with that key wins. */
  function Lookup(ms: seq<Member>, key: string): (r: Option<Value>)
    ensures r.None? <==> forall i :: 0 <= i < |ms| ==> ms[i].key != key
    ensures r.Some? ==> exists i :: 0 <= i < |ms| && ms[i] == Member(key, r.value)
  {
    if ms == [] then None
    else
      var later := Lookup(ms[1..], key);
      if later.Some? then
        var i :| 0 <= i < |ms[1..]| && ms[1..][i] == Member(key, later.value);
        assert ms[i + 1] == Member(key, later.value);
        later
      else if ms[0].key == key then Some(ms[0].value)
      else None
  }

  /** In `a` followed by `b`, a key of `b` hides the same key of `a`. */
  lemma {:induction false} LookupConcat(a: seq<Member>, b: seq<Member>, key: string)
    ensures Lookup(a + b, key) == if Lookup(b, key).Some? then Lookup(b, key) else Lookup(a, key)
    decreases |a|
  {
    if a != [] {
      assert (a + b)[1..] == a[1..] + b;
      LookupConcat(a[1..], b, key);
    } else {
      assert a + b == b;
    }
  }
}
