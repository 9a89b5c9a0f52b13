/**
 * The pieces of Go's standard library that the metadata service leans on for
 * its answers: the decimal form of a length or instant (strconv.Itoa), the
 * split of a URL path on '/' (strings.Split) and the escaping json.Marshal
 * applies to string fields. Each is defined once, with the inverse or the
 * independent reference definition it is proved against.
 */
module Text {
  import opened Wrappers

  // ---------------------------------------------------------------------------
  // Decimal numbers (strconv.Itoa)
  // ---------------------------------------------------------------------------

  predicate IsDigit(c: char) {
    '0' <= c <= '9'
  }

  predicate AllDigits(s: string) {
    forall i :: 0 <= i < |s| ==> IsDigit(s[i])
  }

  function DigitChar(d: nat): (c: char)
    requires d < 10
    ensures IsDigit(c) && c as int - '0' as int == d
  {
    ('0' as int + d) as char
  }

  /** The decimal digits of `n`, most significant first, without leading zeros. */
  function Itoa(n: nat): (s: string)
    ensures |s| >= 1 && AllDigits(s)
    ensures s[0] == '0' ==> n == 0
    decreases n
  {
    if n < 10 then [DigitChar(n)] else Itoa(n / 10) + [DigitChar(n % 10)]
  }

  /** The number a string of decimal digits denotes (the reading back of Itoa). */
  function Atoi(s: string): nat
    requires AllDigits(s)
  {
    if |s| == 0 then 0 else 10 * Atoi(s[..|s| - 1]) + (s[|s| - 1] as int - '0' as int)
  }

  lemma {:induction false} AtoiItoa(n: nat)
    ensures Atoi(Itoa(n)) == n
    decreases n
  {
    if n >= 10 {
      var s := Itoa(n);
      assert s[..|s| - 1] == Itoa(n / 10);
      AtoiItoa(n / 10);
    }
  }

  /** Distinct numbers never render to the same text. */
  lemma ItoaInjective(m: nat, n: nat)
    ensures Itoa(m) == Itoa(n) ==> m == n
  {
    AtoiItoa(m);
    AtoiItoa(n);
  }

  // ---------------------------------------------------------------------------
  // strings.Split on a single separator character, and its inverse
  // ---------------------------------------------------------------------------

  /** Go's strings.Split(s, sep) for a one-character separator. */
  function Split(s: string, sep: char): (parts: seq<string>)
    ensures |parts| >= 1
    ensures forall i :: 0 <= i < |parts| ==> sep !in parts[i]
    decreases |s|
  {
    if |s| == 0 then [""]
    else
      var rest := Split(s[1..], sep);
      if s[0] == sep then [""] + rest
      else [[s[0]] + rest[0]] + rest[1..]
  }

  /** Go's strings.Join(parts, sep): the inverse of Split. */
  function Join(parts: seq<string>, sep: char): string
    requires |parts| >= 1
  {
    if |parts| == 1 then parts[0] else parts[0] + [sep] + Join(parts[1..], sep)
  }

  lemma {:induction false} JoinSplit(s: string, sep: char)
    ensures Join(Split(s, sep), sep) == s
    decreases |s|
  {
    if |s| > 0 {
      var rest := Split(s[1..], sep);
      JoinSplit(s[1..], sep);
      if s[0] == sep {
        assert Split(s, sep) == [""] + rest;
        assert ([""] + rest)[1..] == rest;
      } else {
        var parts := [[s[0]] + rest[0]] + rest[1..];
        assert Split(s, sep) == parts;
        if |rest| > 1 {
          assert parts[1..] == rest[1..];
          assert Join(rest, sep) == rest[0] + [sep] + Join(rest[1..], sep);
        }
      }
    }
  }

  lemma {:induction false} SplitNoSeparator(p: string, sep: char)
    requires sep !in p
    ensures Split(p, sep) == [p]
    decreases |p|
  {
    if |p| > 0 {
      SplitNoSeparator(p[1..], sep);
      assert [p[0]] + p[1..] == p;
    }
  }

  lemma {:induction false} SplitAfterSeparator(p: string, t: string, sep: char)
    requires sep !in p
    ensures Split(p + [sep] + t, sep) == [p] + Split(t, sep)
    decreases |p|
  {
    var s := p + [sep] + t;
    if |p| == 0 {
      assert s[1..] == t;
    } else {
      assert s[1..] == p[1..] + [sep] + t;
      SplitAfterSeparator(p[1..], t, sep);
      assert [p[0]] + p[1..] == p;
    }
  }

  lemma {:induction false} SplitJoin(parts: seq<string>, sep: char)
    requires |parts| >= 1
    requires forall i :: 0 <= i < |parts| ==> sep !in parts[i]
    ensures Split(Join(parts, sep), sep) == parts
    decreases |parts|
  {
    if |parts| == 1 {
      SplitNoSeparator(parts[0], sep);
    } else {
      SplitJoin(parts[1..], sep);
      SplitAfterSeparator(parts[0], Join(parts[1..], sep), sep);
      assert [parts[0]] + parts[1..] == parts;
    }
  }

  lemma {:induction false} JoinLast(parts: seq<string>, sep: char)
    requires |parts| >= 2
    ensures Join(parts, sep) == Join(parts[..|parts| - 1], sep) + [sep] + parts[|parts| - 1]
    decreases |parts|
  {
    if |parts| > 2 {
      JoinLast(parts[1..], sep);
      assert parts[1..][..|parts| - 2] == parts[..|parts| - 1][1..];
    }
  }

  // ---------------------------------------------------------------------------
  // The last segment of a path
  // ---------------------------------------------------------------------------

  /** `t` ends `s`, holds no `sep`, and is either all of `s` or preceded by `sep`. */
  predicate IsLastSegment(t: string, s: string, sep: char) {
    && |t| <= |s|
    && t == s[|s| - |t|..]
    && sep !in t
    && (|t| < |s| ==> s[|s| - |t| - 1] == sep)
  }

  /** The text after the last `sep` of `s`, computed from the end of `s`. */
  function AfterLast(s: string, sep: char): (t: string)
    ensures IsLastSegment(t, s, sep)
    decreases |s|
  {
    if |s| == 0 || s[|s| - 1] == sep then ""
    else AfterLast(s[..|s| - 1], sep) + [s[|s| - 1]]
  }

  lemma LastSegmentUnique(t1: string, t2: string, s: string, sep: char)
    requires IsLastSegment(t1, s, sep) && IsLastSegment(t2, s, sep)
    ensures t1 == t2
  {
  }

  /** The last element of Split(s, sep) is the text after the last separator. */
  lemma LastOfSplit(s: string, sep: char)
    ensures Split(s, sep)[|Split(s, sep)| - 1] == AfterLast(s, sep)
  {
    var parts := Split(s, sep);
    var last := parts[|parts| - 1];
    JoinSplit(s, sep);
    if |parts| >= 2 {
      JoinLast(parts, sep);
      var front := Join(parts[..|parts| - 1], sep);
      assert s == front + [sep] + last;
      assert s[|s| - |last|..] == last;
      assert s[|s| - |last| - 1] == sep;
    } else {
      assert s == last;
    }
    assert IsLastSegment(last, s, sep);
    LastSegmentUnique(last, AfterLast(s, sep), s, sep);
  }

  // ---------------------------------------------------------------------------
  // json.Marshal's escaping of a string, and the decoding that undoes it
  // ---------------------------------------------------------------------------

  const HexDigits: string := "0123456789abcdef"

  /**
   * The text json.Marshal writes for one character inside a string: quote and
   * backslash get a backslash, newline, return and tab their short escapes,
   * other control characters and the HTML-sensitive '<', '>' and '&' a \u00XX
   * escape, U+2028 and U+2029 a \u202X escape; everything else stands as is.
   * Backspace and form feed get \u0008 and \u000c, as in Go releases before
   * 1.22 (from 1.22 on they are written \b and \f).
   */
  function EscapeChar(c: char): (e: string)
    ensures 1 <= |e| <= 6
  {
    if c == '"' then "\\\""
    else if c == '\\' then "\\\\"
    else if c == '\n' then "\\n"
    else if c == '\r' then "\\r"
    else if c == '\t' then "\\t"
    else if c < ' ' || c == '<' || c == '>' || c == '&' then
      "\\u00" + [HexDigits[c as int / 16], HexDigits[c as int % 16]]
    else if c == '\U{2028}' || c == '\U{2029}' then
      "\\u202" + [HexDigits[c as int % 16]]
    else [c]
  }

  function Escape(s: string): string
    decreases |s|
  {
    if |s| == 0 then "" else EscapeChar(s[0]) + Escape(s[1..])
  }

  /** A JSON string literal holding `s`. */
  function Quote(s: string): string {
    "\"" + Escape(s) + "\""
  }

  function HexValue(c: char): Option<nat> {
    if '0' <= c <= '9' then Some(c as int - '0' as int)
    else if 'a' <= c <= 'f' then Some(c as int - 'a' as int + 10)
    else if 'A' <= c <= 'F' then Some(c as int - 'A' as int + 10)
    else None
  }

  /** The code unit a \uXXXX escape denotes, when its four characters are hex digits. */
  function HexQuad(s: string): (v: Option<nat>)
    requires |s| == 4
    ensures v.Some? ==> v.value < 0x10000
  {
    match (HexValue(s[0]), HexValue(s[1]), HexValue(s[2]), HexValue(s[3]))
    case (Some(a), Some(b), Some(c), Some(d)) =>
      if a < 16 && b < 16 && c < 16 && d < 16 then Some(((a * 16 + b) * 16 + c) * 16 + d) else None
    case _ => None
  }

  /** Decodes the first character of the body of a JSON string and says how much text it used. */
  function UnescapeOne(s: string): (r: Option<(char, nat)>)
    requires |s| >= 1
    ensures r.Some? ==> 1 <= r.value.1 <= |s|
  {
    if s[0] == '"' || s[0] < ' ' then None
    else if s[0] != '\\' then Some((s[0], 1))
    else if |s| < 2 then None
    else if s[1] == '"' || s[1] == '\\' || s[1] == '/' then Some((s[1], 2))
    else if s[1] == 'n' then Some(('\n', 2))
    else if s[1] == 'r' then Some(('\r', 2))
    else if s[1] == 't' then Some(('\t', 2))
    else if s[1] == 'b' then Some(('\U{0008}', 2))
    else if s[1] == 'f' then Some(('\U{000C}', 2))
    else if s[1] == 'u' && |s| >= 6 then
      match HexQuad(s[2..6])
      case Some(v) => if 0xD800 <= v < 0xE000 then None else Some((v as char, 6))
      case None => None
    else None
  }

  /** Decodes the body of a JSON string literal, or None when it is not one. */
  function Unescape(s: string): Option<string>
    decreases |s|
  {
    if |s| == 0 then Some("")
    else match UnescapeOne(s)
      case None => None
      case Some((c, k)) =>
        match Unescape(s[k..])
        case None => None
        case Some(t) => Some([c] + t)
  }

  lemma HexDigitValue(d: nat)
    requires d < 16
    ensures HexValue(HexDigits[d]) == Some(d)
  {
  }

  lemma UnescapeHexEscape(c: char, rest: string)
    requires c < ' ' || c == '<' || c == '>' || c == '&'
    requires c != '\n' && c != '\r' && c != '\t'
    ensures UnescapeOne(EscapeChar(c) + rest) == Some((c, 6))
  {
    var hi, lo := c as int / 16, c as int % 16;
    var s := EscapeChar(c) + rest;
    assert s[..6] == "\\u00" + [HexDigits[hi], HexDigits[lo]];
    assert s[2..6] == ['0', '0', HexDigits[hi], HexDigits[lo]];
    HexDigitValue(hi);
    HexDigitValue(lo);
    assert HexQuad(s[2..6]) == Some(hi * 16 + lo);
  }

  lemma UnescapeSeparatorEscape(c: char, rest: string)
    requires c == '\U{2028}' || c == '\U{2029}'
    ensures UnescapeOne(EscapeChar(c) + rest) == Some((c, 6))
  {
    var lo := c as int % 16;
    var s := EscapeChar(c) + rest;
    assert s[2..6] == ['2', '0', '2', HexDigits[lo]];
    HexDigitValue(lo);
    assert HexQuad(s[2..6]) == Some(0x2020 + lo);
  }

  lemma UnescapeEscapeChar(c: char, rest: string)
    ensures UnescapeOne(EscapeChar(c) + rest) == Some((c, |EscapeChar(c)|))
  {
    if c == '"' || c == '\\' || c == '\n' || c == '\r' || c == '\t' {
    } else if c < ' ' || c == '<' || c == '>' || c == '&' {
      UnescapeHexEscape(c, rest);
    } else if c == '\U{2028}' || c == '\U{2029}' {
      UnescapeSeparatorEscape(c, rest);
    }
  }

  /** Unescape unfolded once at a character that decodes. */
  lemma UnescapeStep(s: string, c: char, k: nat)
    requires |s| >= 1 && UnescapeOne(s) == Some((c, k))
    ensures Unescape(s) == match Unescape(s[k..])
                           case None => None
                           case Some(t) => Some([c] + t)
  {
  }

  /** Decoding undoes json.Marshal's escaping of a string. */
  lemma {:induction false} UnescapeEscape(s: string)
    ensures Unescape(Escape(s)) == Some(s)
    decreases |s|
  {
    if |s| > 0 {
      var e := EscapeChar(s[0]);
      var escaped := e + Escape(s[1..]);
      assert Escape(s) == escaped;
      UnescapeEscapeChar(s[0], Escape(s[1..]));
      UnescapeStep(escaped, s[0], |e|);
      assert escaped[|e|..] == Escape(s[1..]);
      UnescapeEscape(s[1..]);
      assert [s[0]] + s[1..] == s;
    }
  }

  /**
   * Reads the body of a JSON string literal up to its closing quote: the
   * decoded text and how much input was used, the quote included.
   */
  function ReadString(s: string): (r: Option<(string, nat)>)
    ensures r.Some? ==> 1 <= r.value.1 <= |s|
    decreases |s|
  {
    if |s| == 0 then None
    else if s[0] == '"' then Some(("", 1))
    else match UnescapeOne(s)
      case None => None
      case Some((c, k)) =>
        match ReadString(s[k..])
        case None => None
        case Some((t, m)) => Some(([c] + t, k + m))
  }

  /** ReadString unfolded once at a character that is not the closing quote. */
  lemma ReadStringStep(s: string, c: char, k: nat)
    requires |s| >= 1 && UnescapeOne(s) == Some((c, k))
    ensures ReadString(s) == match ReadString(s[k..])
                             case None => None
                             case Some((t, m)) => Some(([c] + t, k + m))
  {
  }

  /** Whatever UnescapeOne decodes at the start of `s`, it decodes the same way with more text after it. */
  lemma UnescapeOneExtend(s: string, t: string)
    requires |s| >= 1 && UnescapeOne(s).Some?
    ensures UnescapeOne(s + t) == UnescapeOne(s)
  {
    if s[0] == '\\' && s[1] == 'u' {
      assert (s + t)[2..6] == s[2..6];
    }
  }

  /** A decoded first character of `w`, followed by a tail that reads back. */
  lemma ReadStringCons(w: string, c: char, k: nat, t: string, m: nat)
    requires 1 <= k <= |w| && UnescapeOne(w) == Some((c, k))
    requires ReadString(w[k..]) == Some((t, m))
    ensures ReadString(w) == Some(([c] + t, k + m))
  {
    ReadStringStep(w, c, k);
  }

  /** One step of ReadStringOfUnescape, at texts given by name. */
  lemma ReadStringOfUnescapeStep(e: string, v: string, rest: string, w: string, c: char, k: nat, t: string)
    requires w == e + "\"" + rest && 1 <= k <= |e|
    requires UnescapeOne(e) == Some((c, k)) && v == [c] + t
    requires ReadString(e[k..] + "\"" + rest) == Some((t, |e[k..]| + 1))
    ensures ReadString(w) == Some((v, |e| + 1))
  {
    UnescapeOneExtend(e, "\"" + rest);
    assert w == e + ("\"" + rest);
    assert w[k..] == e[k..] + "\"" + rest;
    ReadStringCons(w, c, k, t, |e[k..]| + 1);
  }

  /**
   * A string body that decodes to `v`, followed by the closing quote, reads
   * back as `v` and stops at that quote.
   */
  lemma {:induction false} ReadStringOfUnescape(e: string, v: string, rest: string)
    requires Unescape(e) == Some(v)
    ensures ReadString(e + "\"" + rest) == Some((v, |e| + 1))
    decreases |e|
  {
    if |e| == 0 {
      assert e + "\"" + rest == "\"" + rest;
    } else {
      var ck := UnescapeOne(e).value;
      UnescapeStep(e, ck.0, ck.1);
      var t := Unescape(e[ck.1..]).value;
      ReadStringOfUnescape(e[ck.1..], t, rest);
      ReadStringOfUnescapeStep(e, v, rest, e + "\"" + rest, ck.0, ck.1, t);
    }
  }

  /** An escaped string followed by a quote reads back as that string, and stops at the quote. */
  lemma ReadStringEscape(v: string, rest: string)
    ensures ReadString(Escape(v) + "\"" + rest) == Some((v, |Escape(v)| + 1))
  {
    UnescapeEscape(v);
    ReadStringOfUnescape(Escape(v), v, rest);
  }
}
