/** Percent-encoding (section 2.1 of RFC 3986) over text given as its UTF-8 bytes,
    one byte a character. The set of bytes left alone is a parameter. */
module Percent {
  import opened Prelude

  ghost predicate IsBytes(s: string) {
    forall i :: 0 <= i < |s| ==> s[i] as int < 256
  }

  predicate IsLetterOrDigit(c: char) {
    'a' <= c <= 'z' || 'A' <= c <= 'Z' || '0' <= c <= '9'
  }

  function HexDigit(n: int): (c: char)
    requires 0 <= n < 16
    ensures HexValue(c) == Some(n)
  {
    "0123456789ABCDEF"[n]
  }

  function HexValue(c: char): Option<int> {
    if '0' <= c <= '9' then Some(c as int - '0' as int)
    else if 'a' <= c <= 'f' then Some(c as int - 'a' as int + 10)
    else if 'A' <= c <= 'F' then Some(c as int - 'A' as int + 10)
    else None
  }

  /** Characters above 255 stand for no byte; every statement below is about bytes. */
  function EscapeByte(keep: char -> bool, c: char): (r: string) {
    if keep(c) || c as int >= 256 then [c] else ['%', HexDigit(c as int / 16), HexDigit(c as int % 16)]
  }

  function Escape(keep: char -> bool, s: string): (r: string) {
    if s == "" then "" else EscapeByte(keep, s[0]) + Escape(keep, s[1..])
  }

  /** None is the error of a '%' not followed by two hexadecimal digits. */
  function Unescape(s: string): (r: Option<string>)
    decreases |s|
  {
    if s == "" then Some("")
    else if s[0] != '%' then
      var rest := Unescape(s[1..]);
      if rest.None? then None else Some([s[0]] + rest.value)
    else if |s| < 3 || HexValue(s[1]).None? || HexValue(s[2]).None? then None
    else
      var rest := Unescape(s[3..]);
      if rest.None? then None
      else Some([(HexValue(s[1]).value * 16 + HexValue(s[2]).value) as char] + rest.value)
  }

  function Before(s: string, r: Option<string>): Option<string> {
    if r.None? then None else Some(s + r.value)
  }

  lemma UnescapePlain(c: char, s: string)
    requires c != '%'
    ensures Unescape([c] + s) == Before([c], Unescape(s))
  {
    assert ([c] + s)[1..] == s;
  }

  lemma UnescapeByte(keep: char -> bool, c: char, s: string)
    requires c as int < 256 && !keep('%')
    ensures Unescape(EscapeByte(keep, c) + s) == Before([c], Unescape(s))
  {
    var t := EscapeByte(keep, c) + s;
    if keep(c) {
      UnescapePlain(c, s);
    } else {
      assert t[3..] == s;
      assert t[1] == HexDigit(c as int / 16) && t[2] == HexDigit(c as int % 16);
    }
  }

  lemma {:induction false} UnescapeEscape(keep: char -> bool, s: string)
    requires IsBytes(s) && !keep('%')
    ensures Unescape(Escape(keep, s)) == Some(s)
  {
    if s != "" {
      UnescapeEscape(keep, s[1..]);
      UnescapeByte(keep, s[0], Escape(keep, s[1..]));
      assert s == [s[0]] + s[1..];
    }
  }

  lemma EscapeInjective(keep: char -> bool, s: string, t: string)
    requires IsBytes(s) && IsBytes(t) && !keep('%')
    ensures Escape(keep, s) == Escape(keep, t) ==> s == t
  {
    UnescapeEscape(keep, s);
    UnescapeEscape(keep, t);
  }

  /** No byte outside the kept set, '%' and the hexadecimal digits is ever written. */
  lemma {:induction false} EscapedAlphabet(keep: char -> bool, s: string, c: char)
    requires IsBytes(s) && !keep(c) && c != '%' && HexValue(c).None?
    ensures c !in Escape(keep, s)
  {
    if s != "" {
      EscapedAlphabet(keep, s[1..], c);
      assert c !in EscapeByte(keep, s[0]);
    }
  }

  lemma BeforeConcat(a: string, b: string, r: Option<string>)
    ensures Before(a + b, r) == Before(a, Before(b, r)) && Before("", r) == r
  {
    if r.Some? {
      assert (a + b) + r.value == a + (b + r.value);
      assert "" + r.value == r.value;
    }
  }

  /** Whatever follows an escaped text is read on its own. */
  lemma {:induction false} UnescapePrefix(keep: char -> bool, s: string, t: string)
    requires IsBytes(s) && !keep('%')
    ensures Unescape(Escape(keep, s) + t) == Before(s, Unescape(t))
  {
    if s == "" {
      assert Escape(keep, s) + t == t;
      BeforeConcat("", "", Unescape(t));
    } else {
      UnescapePrefix(keep, s[1..], t);
      EscapeStep(keep, s, t);
      UnescapeByte(keep, s[0], Escape(keep, s[1..]) + t);
      BeforeConcat([s[0]], s[1..], Unescape(t));
      assert s == [s[0]] + s[1..];
    }
  }

  lemma EscapeStep(keep: char -> bool, s: string, t: string)
    requires s != ""
    ensures Escape(keep, s) + t == EscapeByte(keep, s[0]) + (Escape(keep, s[1..]) + t)
  {
  }
}
