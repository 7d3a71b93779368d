/**
 * The part of JSON.stringify the native backend uses: string quoting as
 * ECMA-262's QuoteJSONString performs it, non-negative integer numbers, and
 * flat objects whose members keep their insertion order. An unescaping
 * function is the partner of the quoting.
 */
module Json {
  import opened Wrappers
  import Text

  function HexDigit(d: nat): char
    requires d < 16
  {
    if d < 10 then ('0' as int + d) as char else ('a' as int + (d - 10)) as char
  }

  function HexValue(c: char): Option<nat>
  {
    if '0' <= c <= '9' then Some(c as int - '0' as int)
    else if 'a' <= c <= 'f' then Some(c as int - 'a' as int + 10)
    else if 'A' <= c <= 'F' then Some(c as int - 'A' as int + 10)
    else None
  }

  /** The escape QuoteJSONString writes for one code point. */
  function EscapeChar(c: char): string
  {
    var v := c as int;
    if v == 0x22 then ['\\', '"']
    else if v == 0x5C then ['\\', '\\']
    else if v == 0x08 then ['\\', 'b']
    else if v == 0x0C then ['\\', 'f']
    else if v == 0x0A then ['\\', 'n']
    else if v == 0x0D then ['\\', 'r']
    else if v == 0x09 then ['\\', 't']
    else if v < 0x20 then ['\\', 'u', '0', '0', HexDigit(v / 16), HexDigit(v % 16)]
    else [c]
  }

  function Escape(s: string): string
  {
    if s == [] then [] else EscapeChar(s[0]) + Escape(s[1..])
  }

  /** JSON.stringify of a string. */
  function Quote(s: string): string
  {
    "\"" + Escape(s) + "\""
  }

  function ShortEscape(c: char): Option<char>
  {
    match c
    case '"' => Some('"')
    case '\\' => Some('\\')
    case '/' => Some('/')
    case 'b' => Some(0x08 as char)
    case 'f' => Some(0x0C as char)
    case 'n' => Some(0x0A as char)
    case 'r' => Some(0x0D as char)
    case 't' => Some(0x09 as char)
    case _ => None
  }

  function UnicodeEscape(t: string): Option<char>
    requires |t| == 4
  {
    var h0, h1, h2, h3 := HexValue(t[0]), HexValue(t[1]), HexValue(t[2]), HexValue(t[3]);
    if h0.None? || h1.None? || h2.None? || h3.None? then None
    else
      var v := ((h0.value * 16 + h1.value) * 16 + h2.value) * 16 + h3.value;
      if 0xD800 <= v < 0xE000 then None else Some(v as char)
  }

  /** The body of a JSON string literal read back; None on a malformed body. */
  function Unescape(t: string): Option<string>
    decreases |t|
  {
    if t == [] then Some([])
    else if t[0] == '\\' then
      if |t| < 2 then None
      else if t[1] == 'u' then
        if |t| < 6 then None
        else
          match UnicodeEscape(t[2..6])
          case None => None
          case Some(c) => Prepend(c, Unescape(t[6..]))
      else
        match ShortEscape(t[1])
        case None => None
        case Some(c) => Prepend(c, Unescape(t[2..]))
    else if t[0] == '"' || (t[0] as int) < 0x20 then None
    else Prepend(t[0], Unescape(t[1..]))
  }

  function Prepend(c: char, r: Option<string>): Option<string>
  {
    match r
    case None => None
    case Some(s) => Some([c] + s)
  }

  lemma UnescapeHead(c: char, rest: string)
    ensures Unescape(EscapeChar(c) + rest) == Prepend(c, Unescape(rest))
  {
    var v := c as int;
    var t := EscapeChar(c) + rest;
    if v < 0x20 && v != 0x08 && v != 0x0C && v != 0x0A && v != 0x0D && v != 0x09 {
      assert t[2..6] == ['0', '0', HexDigit(v / 16), HexDigit(v % 16)];
      assert t[6..] == rest;
      assert UnicodeEscape(t[2..6]) == Some(c);
    } else if v == 0x22 || v == 0x5C || v == 0x08 || v == 0x0C || v == 0x0A || v == 0x0D || v == 0x09 {
      assert t[2..] == rest;
    } else {
      assert t[1..] == rest;
    }
  }

  /** Reading the escaped text back gives the original string. */
  lemma {:induction false} UnescapeEscape(s: string)
    ensures Unescape(Escape(s)) == Some(s)
  {
    if s != [] {
      UnescapeHead(s[0], Escape(s[1..]));
      UnescapeEscape(s[1..]);
      assert [s[0]] + s[1..] == s;
    }
  }

  /** Characters JSON.stringify leaves as they are. */
  predicate IsPlain(s: string)
  {
    forall i :: 0 <= i < |s| ==> s[i] != '"' && s[i] != '\\' && s[i] as int >= 0x20
  }

  lemma {:induction false} EscapePlain(s: string)
    requires IsPlain(s)
    ensures Escape(s) == s
  {
    if s != [] {
      assert IsPlain(s[1..]) by {
        forall i | 0 <= i < |s[1..]| ensures s[1..][i] == s[i + 1] { }
      }
      EscapePlain(s[1..]);
      assert [s[0]] + s[1..] == s;
    }
  }

  /** Escaping keeps text ASCII, and introduces no non-ASCII character. */
  lemma {:induction false} EscapeAscii(s: string)
    ensures Text.IsAscii(Escape(s)) <==> Text.IsAscii(s)
  {
    if s != [] {
      EscapeAscii(s[1..]);
      var e := EscapeChar(s[0]);
      EscapeCharAscii(s[0]);
      AsciiSplit(e, Escape(s[1..]));
      AsciiSplit([s[0]], s[1..]);
      assert [s[0]] + s[1..] == s;
    }
  }

  lemma EscapeCharAscii(c: char)
    ensures Text.IsAscii(EscapeChar(c)) <==> c as int < 0x80
  {
    var v := c as int;
    if v < 0x20 && v != 0x08 && v != 0x0C && v != 0x0A && v != 0x0D && v != 0x09 {
      var e := EscapeChar(c);
      assert e == ['\\', 'u', '0', '0', HexDigit(v / 16), HexDigit(v % 16)];
      assert forall i :: 0 <= i < |e| ==> e[i] as int < 0x80;
    } else if !(v == 0x22 || v == 0x5C || v == 0x08 || v == 0x0C || v == 0x0A || v == 0x0D || v == 0x09) {
      assert EscapeChar(c) == [c] && [c][0] == c;
    } else {
      var e := EscapeChar(c);
      assert |e| == 2 && e[0] == '\\' && e[1] in "\"\\bfnrt";
      assert forall i :: 0 <= i < |e| ==> e[i] as int < 0x80;
    }
  }

  lemma AsciiSplit(a: string, b: string)
    ensures Text.IsAscii(a + b) <==> Text.IsAscii(a) && Text.IsAscii(b)
  {
    if Text.IsAscii(a) && Text.IsAscii(b) {
      Text.AsciiConcat(a, b);
    }
    if Text.IsAscii(a + b) {
      forall i | 0 <= i < |a| ensures a[i] as int < 0x80 { assert (a + b)[i] == a[i]; }
      forall i | 0 <= i < |b| ensures b[i] as int < 0x80 { assert (a + b)[|a| + i] == b[i]; }
    }
  }

  lemma QuoteAscii(s: string)
    ensures Text.IsAscii(Quote(s)) <==> Text.IsAscii(s)
  {
    EscapeAscii(s);
    AsciiSplit("\"", Escape(s));
    AsciiSplit("\"" + Escape(s), "\"");
  }

  /** A JSON value as the payloads use them. */
  datatype Value = JString(s: string) | JNat(n: nat)

  function ValueText(v: Value): string
  {
    match v
    case JString(s) => Quote(s)
    case JNat(n) => Text.NatToDecimal(n)
  }

  function MembersText(members: seq<(string, Value)>): string
  {
    if members == [] then ""
    else
      var m := Quote(members[0].0) + ":" + ValueText(members[0].1);
      if |members| == 1 then m else m + "," + MembersText(members[1..])
  }

  /** JSON.stringify of an object literal with the given members in insertion order. */
  function Stringify(members: seq<(string, Value)>): string
  {
    "{" + MembersText(members) + "}"
  }

  predicate ValueIsAscii(v: Value)
  {
    match v
    case JString(s) => Text.IsAscii(s)
    case JNat(_) => true
  }

  predicate AsciiMembers(members: seq<(string, Value)>)
  {
    forall i :: 0 <= i < |members| ==> Text.IsAscii(members[i].0) && ValueIsAscii(members[i].1)
  }

  /** An object whose keys and string values are ASCII is ASCII text. */
  lemma {:induction false} StringifyAscii(members: seq<(string, Value)>)
    requires AsciiMembers(members)
    ensures Text.IsAscii(Stringify(members))
  {
    MembersAscii(members);
    Text.AsciiConcat("{", MembersText(members));
    Text.AsciiConcat("{" + MembersText(members), "}");
  }

  lemma {:induction false} MembersAscii(members: seq<(string, Value)>)
    requires AsciiMembers(members)
    ensures Text.IsAscii(MembersText(members))
  {
    if members != [] {
      var (k, v) := members[0];
      QuoteAscii(k);
      assert Text.IsAscii(ValueText(v)) by {
        match v
        case JString(s) => QuoteAscii(s);
        case JNat(n) => Text.DecimalIsAscii(n);
      }
      Text.AsciiConcat(Quote(k), ":");
      Text.AsciiConcat(Quote(k) + ":", ValueText(v));
      var m := Quote(k) + ":" + ValueText(v);
      if |members| > 1 {
        MembersAscii(members[1..]);
        Text.AsciiConcat(m, ",");
        Text.AsciiConcat(m + ",", MembersText(members[1..]));
      }
    }
  }

  /**
   * An object whose members' keys and values are ASCII except that one string
   * value may not be: the text is ASCII exactly when that value is.
   */
  lemma {:induction false} MembersAsciiIff(members: seq<(string, Value)>, j: nat)
    requires j < |members| && members[j].1.JString?
    requires forall i :: 0 <= i < |members| && i != j ==> Text.IsAscii(members[i].0) && ValueIsAscii(members[i].1)
    requires Text.IsAscii(members[j].0)
    ensures Text.IsAscii(MembersText(members)) <==> Text.IsAscii(members[j].1.s)
  {
    var (k, v) := members[0];
    QuoteAscii(k);
    var vt := ValueText(v);
    assert Text.IsAscii(vt) <==> (j == 0 ==> Text.IsAscii(members[j].1.s)) by {
      match v
      case JString(s) => QuoteAscii(s);
      case JNat(n) => Text.DecimalIsAscii(n);
    }
    AsciiSplit(Quote(k), ":");
    AsciiSplit(Quote(k) + ":", vt);
    var m := Quote(k) + ":" + vt;
    if |members| > 1 {
      AsciiSplit(m, ",");
      AsciiSplit(m + ",", MembersText(members[1..]));
      if j == 0 {
        MembersAscii(members[1..]);
      } else {
        MembersAsciiIff(members[1..], j - 1);
      }
    }
  }

  lemma StringifyAsciiIff(members: seq<(string, Value)>, j: nat)
    requires j < |members| && members[j].1.JString?
    requires forall i :: 0 <= i < |members| && i != j ==> Text.IsAscii(members[i].0) && ValueIsAscii(members[i].1)
    requires Text.IsAscii(members[j].0)
    ensures Text.IsAscii(Stringify(members)) <==> Text.IsAscii(members[j].1.s)
  {
    MembersAsciiIff(members, j);
    AsciiSplit("{", MembersText(members));
    AsciiSplit("{" + MembersText(members), "}");
  }
}
