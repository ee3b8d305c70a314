/** JSON scalar values and their compact textual form.

    The catalog's answers are JSON, and the search code turns every field it
    uses into text with the JSON library's `to_string` (or its `Display`,
    which prints the same text). That text is what gets classified and
    printed, so it is modelled exactly: `null`, `true`/`false`, decimal
    integers, decimal fractions, and double-quoted strings with the library's
    escapes. `Unescape` reads the escapes back and is the partner of `Escape`. */
module Json {
  import opened Options

  type Digit = d: int | 0 <= d < 10

  datatype Value =
    | Null
    | Bool(b: bool)
    | Int(i: int)
      /** A non-integral number as the library prints it: `whole.fraction`. */
    | Float(negative: bool, whole: nat, fraction: seq<Digit>)
    | Str(s: string)

  // ---------------------------------------------------------------- numbers

  predicate IsDigitChar(ch: char) {
    '0' <= ch <= '9'
  }

  /** A non-empty run of decimal digits. */
  predicate IsDecimal(s: string) {
    |s| > 0 && forall i :: 0 <= i < |s| ==> IsDigitChar(s[i])
  }

  function DigitChar(d: Digit): (ch: char)
    ensures IsDigitChar(ch)
  {
    (d + '0' as int) as char
  }

  /** Value of a digit string, most significant digit first. */
  function ParseNat(s: string): nat
    requires forall i :: 0 <= i < |s| ==> IsDigitChar(s[i])
  {
    if s == [] then 0
    else
      assert IsDigitChar(s[|s| - 1]);
      10 * ParseNat(s[..|s| - 1]) + (s[|s| - 1] as int - '0' as int)
  }

  /** Decimal form of a natural number: canonical (no leading zero) and read
      back by `ParseNat`. */
  function NatToString(n: nat): (r: string)
    ensures IsDecimal(r)
    ensures ParseNat(r) == n
    ensures r[0] == '0' <==> n == 0
    ensures |r| == 1 <==> n < 10
  {
    if n < 10 then [DigitChar(n)]
    else
      var r := NatToString(n / 10) + [DigitChar(n % 10)];
      assert r[..|r| - 1] == NatToString(n / 10);
      r
  }

  function IntToString(i: int): string {
    if i < 0 then "-" + NatToString(-i) else NatToString(i)
  }

  function DigitsToString(ds: seq<Digit>): (r: string)
    ensures |r| == |ds|
  {
    if ds == [] then [] else [DigitChar(ds[0])] + DigitsToString(ds[1..])
  }

  // ---------------------------------------------------------------- strings

  const HexDigits: string := "0123456789abcdef"

  /** Characters the library does not copy verbatim into a string literal. */
  predicate NeedsEscape(ch: char) {
    ch == '"' || ch == '\\' || (ch as int) < 0x20
  }

  /** The escape of one character: the two-character forms for the quote, the
      backslash and five control characters, `\u00XX` (lower-case hex) for
      the other control characters, and the character itself otherwise. */
  function EscapeChar(ch: char): (r: string)
    ensures r == [ch] <==> !NeedsEscape(ch)
    ensures r != [] && r[0] != '"'
    ensures r[|r| - 1] == '"' <==> ch == '"'
  {
    if ch == '"' then "\\\""
    else if ch == '\\' then "\\\\"
    else if ch as int == 0x08 then "\\b"
    else if ch as int == 0x0C then "\\f"
    else if ch == '\n' then "\\n"
    else if ch == '\r' then "\\r"
    else if ch == '\t' then "\\t"
    else if (ch as int) < 0x20 then
      "\\u00" + [HexDigits[ch as int / 16], HexDigits[ch as int % 16]]
    else [ch]
  }

  function Escape(s: string): (r: string)
    ensures |r| >= |s|
  {
    if s == [] then [] else EscapeChar(s[0]) + Escape(s[1..])
  }

  /** The compact JSON text of a value. */
  function Render(v: Value): string {
    match v
    case Null => "null"
    case Bool(b) => if b then "true" else "false"
    case Int(i) => IntToString(i)
    case Float(neg, w, f) =>
      (if neg then "-" else "") + NatToString(w) + "."
        + (if f == [] then "0" else DigitsToString(f))
    case Str(s) => "\"" + Escape(s) + "\""
  }

  // ---------------------------------------------------------- reading back

  function HexValue(ch: char): (r: Option<nat>)
    ensures r.Some? ==> r.value < 16
  {
    if '0' <= ch <= '9' then Some(ch as int - '0' as int)
    else if 'a' <= ch <= 'f' then Some(ch as int - 'a' as int + 10)
    else if 'A' <= ch <= 'F' then Some(ch as int - 'A' as int + 10)
    else None
  }

  /** The value of four hex digits, if they are four hex digits. */
  function Hex4(s: string): (r: Option<nat>)
    requires |s| == 4
    ensures r.Some? ==> r.value < 0x10000
  {
    match (HexValue(s[0]), HexValue(s[1]), HexValue(s[2]), HexValue(s[3]))
    case (Some(a), Some(b), Some(c), Some(d)) => Some(((a * 16 + b) * 16 + c) * 16 + d)
    case _ => None
  }

  function ShortEscape(e: char): Option<char> {
    if e == '"' then Some('"')
    else if e == '\\' then Some('\\')
    else if e == '/' then Some('/')
    else if e == 'b' then Some(0x08 as char)
    else if e == 'f' then Some(0x0C as char)
    else if e == 'n' then Some('\n')
    else if e == 'r' then Some('\r')
    else if e == 't' then Some('\t')
    else None
  }

  function Cons(ch: char, rest: Option<string>): Option<string> {
    match rest
    case Some(t) => Some([ch] + t)
    case None => None
  }

  /** Reads the body of a JSON string literal back into the characters it
      denotes; `None` on a malformed escape. */
  function Unescape(s: string): Option<string>
    decreases |s|
  {
    if s == [] then Some([])
    else if s[0] != '\\' then Cons(s[0], Unescape(s[1..]))
    else if |s| < 2 then None
    else if ShortEscape(s[1]).Some? then Cons(ShortEscape(s[1]).value, Unescape(s[2..]))
    else if s[1] == 'u' && |s| >= 6 then
      match Hex4(s[2..6])
      case Some(code) =>
        if code < 0xD800 || 0xE000 <= code then Cons(code as char, Unescape(s[6..]))
        else None
      case None => None
    else None
  }

  // ------------------------------------------------------------------ lemmas

  lemma {:induction false} UnescapeEscapeChar(ch: char, t: string)
    ensures Unescape(EscapeChar(ch) + t) == Cons(ch, Unescape(t))
  {
    var s := EscapeChar(ch) + t;
    if !NeedsEscape(ch) {
      assert s[0] == ch && s[1..] == t;
    } else if HasShortEscape(ch) {
      assert s[0] == '\\' && s[2..] == t;
    } else {
      UnicodeEscapeStep(ch, t);
    }
  }

  /** The characters with a two-character escape. */
  predicate HasShortEscape(ch: char) {
    ch == '"' || ch == '\\' || ch as int == 0x08 || ch as int == 0x0C
    || ch == '\n' || ch == '\r' || ch == '\t'
  }

  /** A control character without a short escape reads back from its
      six-character `\u00XX` form. */
  lemma {:induction false} UnicodeEscapeStep(ch: char, t: string)
    requires NeedsEscape(ch) && !HasShortEscape(ch)
    ensures Unescape(EscapeChar(ch) + t) == Cons(ch, Unescape(t))
  {
    var s := EscapeChar(ch) + t;
    var code := ch as int;
    assert s[..6] == "\\u00" + [HexDigits[code / 16], HexDigits[code % 16]];
    assert s[2..6] == ['0', '0', HexDigits[code / 16], HexDigits[code % 16]];
    assert HexValue(HexDigits[code / 16]) == Some(code / 16);
    assert HexValue(HexDigits[code % 16]) == Some(code % 16);
    assert Hex4(s[2..6]) == Some(code);
    assert (code as char) == ch;
    assert s[6..] == t;
  }

  /** String escaping is undone by reading the escapes back. */
  lemma {:induction false} UnescapeEscape(s: string)
    ensures Unescape(Escape(s)) == Some(s)
  {
    if s != [] {
      UnescapeEscape(s[1..]);
      UnescapeEscapeChar(s[0], Escape(s[1..]));
      assert [s[0]] + s[1..] == s;
    }
  }

  /** A string with nothing to escape is printed verbatim between quotes. */
  lemma {:induction false} EscapePlain(s: string)
    requires forall i :: 0 <= i < |s| ==> !NeedsEscape(s[i])
    ensures Escape(s) == s
  {
    if s != [] {
      EscapePlain(s[1..]);
      assert [s[0]] + s[1..] == s;
    }
  }

  /** An escaped string never starts with a quote: every quote is preceded
      by a backslash. */
  lemma {:induction false} EscapeHead(s: string)
    requires s != []
    ensures Escape(s)[0] != '"'
  {
  }

  /** The escaped string ends with a quote exactly when the string does. */
  lemma {:induction false} EscapeLast(s: string)
    requires s != []
    ensures Escape(s)[|Escape(s)| - 1] == '"' <==> s[|s| - 1] == '"'
  {
    var head, tail := EscapeChar(s[0]), Escape(s[1..]);
    assert Escape(s) == head + tail;
    if |s| == 1 {
      assert tail == [];
      assert Escape(s) == head;
    } else {
      EscapeLast(s[1..]);
      assert Escape(s)[|Escape(s)| - 1] == tail[|tail| - 1];
    }
  }

  /** Escaping works character by character, so it distributes over
      concatenation. */
  lemma {:induction false} EscapeAppend(a: string, b: string)
    ensures Escape(a + b) == Escape(a) + Escape(b)
  {
    if a == [] {
      assert a + b == b;
    } else {
      assert (a + b)[0] == a[0];
      assert (a + b)[1..] == a[1..] + b;
      EscapeAppend(a[1..], b);
    }
  }

  /** The repeat counter is compared with the text "0": only the integer
      zero prints that way. */
  lemma {:induction false} RenderIsZero(v: Value)
    ensures Render(v) == "0" <==> v == Int(0)
  {
    match v
    case Int(i) =>
      if i < 0 {
        assert Render(v)[0] == '-';
      } else if Render(v) == "0" {
        assert ParseNat("0") == 0;
      }
    case Float(neg, w, f) =>
      assert |Render(v)| >= 3;
    case Str(s) =>
      assert Render(v)[0] == '"';
    case _ =>
  }

  /** Only strings print with a leading quote. */
  lemma {:induction false} RenderQuoted(v: Value)
    ensures Render(v) != [] && (Render(v)[0] == '"' <==> v.Str?)
  {
    match v
    case Int(i) =>
      if i >= 0 {
        assert IsDigitChar(Render(v)[0]);
      } else {
        assert Render(v)[0] == '-';
      }
    case Float(neg, w, f) =>
      if !neg {
        assert Render(v)[0] == NatToString(w)[0];
        assert IsDigitChar(NatToString(w)[0]);
      } else {
        assert Render(v)[0] == '-';
      }
    case Null =>
      assert Render(v)[0] == 'n';
    case Bool(b) =>
      assert Render(v)[0] == 't' || Render(v)[0] == 'f';
    case Str(s) =>
  }

  /** Two strings print alike only if they are equal. */
  lemma {:induction false} RenderStrInjective(s: string, t: string)
    requires Render(Str(s)) == Render(Str(t))
    ensures s == t
  {
    var es, et := Escape(s), Escape(t);
    assert es == Render(Str(s))[1..|Render(Str(s))| - 1];
    assert et == Render(Str(t))[1..|Render(Str(t))| - 1];
    UnescapeEscape(s);
    UnescapeEscape(t);
  }

  /** Only JSON null prints as the text "null". */
  lemma {:induction false} RenderIsNull(v: Value)
    ensures Render(v) == "null" <==> v == Null
  {
    match v
    case Int(i) => IntNotNull(i);
    case Float(neg, w, f) => FloatNotNull(neg, w, f);
    case Str(s) => assert Render(v)[0] == '"';
    case _ =>
  }

  lemma {:induction false} IntNotNull(i: int)
    ensures Render(Int(i)) != "null"
  {
    var r := NatToString(if i < 0 then -i else i);
    if i >= 0 {
      assert Render(Int(i)) == r;
      assert IsDigitChar(r[0]);
    } else {
      assert Render(Int(i))[0] == '-';
    }
  }

  lemma {:induction false} FloatNotNull(neg: bool, w: nat, f: seq<Digit>)
    ensures Render(Float(neg, w, f)) != "null"
  {
    var r := NatToString(w);
    var tail := "." + (if f == [] then "0" else DigitsToString(f));
    var line := Render(Float(neg, w, f));
    if neg {
      assert line == "-" + r + tail;
      assert line[0] == '-';
    } else {
      assert line == r + tail;
      assert line[0] == r[0];
      assert IsDigitChar(r[0]);
    }
  }
}
