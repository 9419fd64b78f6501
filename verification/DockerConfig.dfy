/** Entries of a Docker configuration: the user and the password travel in one base64 field.
    Text is given as its bytes. */
module DockerConfig {
  import opened Prelude
  import opened Percent

  // ------------------------------------------------------------- base64

  /** Section 4 of RFC 4648. */
  function Digit(n: int): (c: char)
    requires 0 <= n < 64
    ensures DigitValue(c) == Some(n) && c != '=' && c != '\r' && c != '\n'
  {
    if n < 26 then ('A' as int + n) as char
    else if n < 52 then ('a' as int + n - 26) as char
    else if n < 62 then ('0' as int + n - 52) as char
    else if n == 62 then '+'
    else '/'
  }

  function DigitValue(c: char): (n: Option<int>)
    ensures n.Some? ==> 0 <= n.value < 64
  {
    if 'A' <= c <= 'Z' then Some(c as int - 'A' as int)
    else if 'a' <= c <= 'z' then Some(c as int - 'a' as int + 26)
    else if '0' <= c <= '9' then Some(c as int - '0' as int + 52)
    else if c == '+' then Some(62)
    else if c == '/' then Some(63)
    else None
  }

  /** The alphabet. */
  lemma DigitsAre(n: int)
    requires 0 <= n < 64
    ensures n < 26 ==> Digit(n) == "ABCDEFGHIJKLMNOPQRSTUVWXYZ"[n]
    ensures 26 <= n < 52 ==> Digit(n) == "abcdefghijklmnopqrstuvwxyz"[n - 26]
    ensures 52 <= n < 62 ==> Digit(n) == "0123456789"[n - 52]
    ensures n >= 62 ==> Digit(n) == "+/"[n - 62]
  {
  }

  /** No other character is a digit. */
  lemma OnlyDigits(c: char)
    ensures DigitValue(c).Some? <==> exists n :: 0 <= n < 64 && c == Digit(n)
  {
    if DigitValue(c).Some? {
      assert c == Digit(DigitValue(c).value);
    }
  }

  function Byte(c: char): (n: int)
    ensures 0 <= n < 256
  {
    c as int % 256
  }

  /** Three bytes give four digits; what is missing at the end is padded. */
  function Encode(s: string): string {
    if s == "" then ""
    else
      var a := Byte(s[0]);
      if |s| == 1 then [Digit(a / 4), Digit(a % 4 * 16), '=', '=']
      else
        var b := Byte(s[1]);
        if |s| == 2 then [Digit(a / 4), Digit(a % 4 * 16 + b / 16), Digit(b % 16 * 4), '=']
        else
          var c := Byte(s[2]);
          [Digit(a / 4), Digit(a % 4 * 16 + b / 16), Digit(b % 16 * 4 + c / 64), Digit(c % 64)] + Encode(s[3..])
  }

  function WithoutNewlines(s: string): string {
    if s == "" then ""
    else (if s[0] == '\r' || s[0] == '\n' then "" else [s[0]]) + WithoutNewlines(s[1..])
  }

  function First(v0: int, v1: int): char
    requires 0 <= v0 < 64 && 0 <= v1 < 64
  {
    (v0 * 4 + v1 / 16) as char
  }

  function Second(v1: int, v2: int): char
    requires 0 <= v1 < 64 && 0 <= v2 < 64
  {
    (v1 % 16 * 16 + v2 / 4) as char
  }

  function Third(v2: int, v3: int): char
    requires 0 <= v2 < 64 && 0 <= v3 < 64
  {
    (v2 % 4 * 64 + v3) as char
  }

  function DecodeGroups(s: string): Option<string> {
    if s == "" then Some("")
    else if |s| < 4 || DigitValue(s[0]).None? || DigitValue(s[1]).None? then None
    else
      var v0, v1 := DigitValue(s[0]).value, DigitValue(s[1]).value;
      if s[2] == '=' then if s[3..] == "=" then Some([First(v0, v1)]) else None
      else if DigitValue(s[2]).None? then None
      else
        var v2 := DigitValue(s[2]).value;
        if s[3] == '=' then if |s| == 4 then Some([First(v0, v1), Second(v1, v2)]) else None
        else if DigitValue(s[3]).None? then None
        else Before([First(v0, v1), Second(v1, v2), Third(v2, DigitValue(s[3]).value)], DecodeGroups(s[4..]))
  }

  function Decode(s: string): Option<string> {
    DecodeGroups(WithoutNewlines(s))
  }

  predicate AllDigits(s: string) {
    forall i :: 0 <= i < |s| ==> DigitValue(s[i]).Some?
  }

  /** Groups of four digits, of which the last may end in one or two padding characters. */
  predicate WellPadded(s: string) {
    && |s| % 4 == 0
    && (AllDigits(s)
        || (|s| >= 4 && AllDigits(s[..|s| - 2]) && s[|s| - 1] == '='
            && (s[|s| - 2] == '=' || DigitValue(s[|s| - 2]).Some?)))
  }

  lemma WellPaddedTail(s: string)
    requires |s| > 4
    ensures WellPadded(s) <==> AllDigits(s[..4]) && WellPadded(s[4..])
  {
    var t := s[4..];
    DigitsTail(s);
    if |s| >= 8 {
      DigitsTail(s[..|s| - 2]);
      assert s[..|s| - 2][..4] == s[..4] && s[..|s| - 2][4..] == t[..|t| - 2];
    }
  }

  lemma DigitsTail(s: string)
    requires |s| >= 4
    ensures AllDigits(s) <==> AllDigits(s[..4]) && AllDigits(s[4..])
  {
    assert forall i :: 4 <= i < |s| ==> s[i] == s[4..][i - 4];
  }

  lemma HeadDigits(s: string)
    requires |s| >= 4
    ensures AllDigits(s[..4]) <==>
      DigitValue(s[0]).Some? && DigitValue(s[1]).Some? && DigitValue(s[2]).Some? && DigitValue(s[3]).Some?
  {
    hide DigitValue;
    var head := s[..4];
    assert head[0] == s[0] && head[1] == s[1] && head[2] == s[2] && head[3] == s[3];
  }

  lemma GroupStep(s: string)
    requires |s| > 4
    ensures DecodeGroups(s).Some? <==> AllDigits(s[..4]) && DecodeGroups(s[4..]).Some?
  {
    HeadDigits(s);
    assert DigitValue('=').None? && |s[3..]| > 1;
    hide First, Second, Third, DigitValue;
  }

  lemma GroupLast(s: string)
    requires |s| <= 4
    ensures DecodeGroups(s).Some? <==> WellPadded(s)
  {
    hide First, Second, Third;
    if |s| == 4 {
      assert s[3..] == [s[3]] && DecodeGroups(s[4..]) == Some("");
      assert AllDigits(s[..2]) <==> DigitValue(s[..2][0]).Some? && DigitValue(s[..2][1]).Some?;
    }
  }

  /** Just these are decoded. */
  lemma {:induction false} DecodesIff(s: string)
    ensures DecodeGroups(s).Some? <==> WellPadded(s)
  {
    hide DecodeGroups, WellPadded;
    if |s| > 4 {
      DecodesIff(s[4..]);
      GroupStep(s);
      WellPaddedTail(s);
    } else {
      GroupLast(s);
    }
  }

  lemma DropStep(c: char, s: string)
    ensures WithoutNewlines([c] + s) == (if c == '\r' || c == '\n' then "" else [c]) + WithoutNewlines(s)
  {
    assert ([c] + s)[1..] == s;
  }

  lemma {:induction false} DroppedApart(a: string, b: string)
    ensures WithoutNewlines(a + b) == WithoutNewlines(a) + WithoutNewlines(b)
  {
    if a == "" {
      assert a + b == b;
    } else {
      var c, rest := a[0], a[1..];
      DroppedApart(rest, b);
      DropStep(c, rest);
      DropStep(c, rest + b);
      assert a == [c] + rest && a + b == [c] + (rest + b);
    }
  }

  /** Line breaks play no part, wherever they stand. */
  lemma NewlineIsSkipped(a: string, c: char, b: string)
    requires c == '\r' || c == '\n'
    ensures Decode(a + [c] + b) == Decode(a + b)
  {
    DropStep(c, b);
    DroppedApart(a, [c] + b);
    DroppedApart(a, b);
    assert a + [c] + b == a + ([c] + b) && "" + WithoutNewlines(b) == WithoutNewlines(b);
  }

  lemma {:induction false} NothingToDrop(s: string)
    requires '\r' !in s && '\n' !in s
    ensures WithoutNewlines(s) == s
  {
    if s != "" {
      NothingToDrop(s[1..]);
      assert s == [s[0]] + s[1..];
    }
  }

  lemma {:induction false} NoNewline(s: string, c: char)
    requires c == '\r' || c == '\n'
    ensures c !in Encode(s)
  {
    if |s| > 3 {
      NoNewline(s[3..], c);
    }
  }

  lemma Sixteens(h: int, l: int)
    requires 0 <= h && 0 <= l < 16
    ensures (h * 16 + l) / 16 == h && (h * 16 + l) % 16 == l
  {
  }

  lemma Fours(h: int, l: int)
    requires 0 <= h && 0 <= l < 4
    ensures (h * 4 + l) / 4 == h && (h * 4 + l) % 4 == l
  {
  }

  lemma FirstByte(a: char, h: int)
    requires a as int < 256 && 0 <= h < 16
    ensures First(Byte(a) / 4, Byte(a) % 4 * 16 + h) == a
  {
    Sixteens(Byte(a) % 4, h);
  }

  lemma SecondByte(b: char, h: int, l: int)
    requires b as int < 256 && 0 <= h < 4 && 0 <= l < 4
    ensures Second(h * 16 + Byte(b) / 16, Byte(b) % 16 * 4 + l) == b
  {
    var n := Byte(b);
    Sixteens(h, n / 16);
    Fours(n % 16, l);
    assert n / 16 * 16 + n % 16 == n;
    assert (h * 16 + n / 16) % 16 * 16 + (n % 16 * 4 + l) / 4 == n;
  }

  lemma ThirdByte(c: char, h: int)
    requires c as int < 256 && 0 <= h < 16
    ensures Third(h * 4 + Byte(c) / 64, Byte(c) % 64) == c
  {
    Fours(h, Byte(c) / 64);
  }

  lemma FullGroup(v0: int, v1: int, v2: int, v3: int, rest: string)
    requires 0 <= v0 < 64 && 0 <= v1 < 64 && 0 <= v2 < 64 && 0 <= v3 < 64
    ensures DecodeGroups([Digit(v0), Digit(v1), Digit(v2), Digit(v3)] + rest)
      == Before([First(v0, v1), Second(v1, v2), Third(v2, v3)], DecodeGroups(rest))
  {
    var s := [Digit(v0), Digit(v1), Digit(v2), Digit(v3)] + rest;
    assert s[4..] == rest;
  }

  lemma PaddedGroups(v0: int, v1: int, v2: int)
    requires 0 <= v0 < 64 && 0 <= v1 < 64 && 0 <= v2 < 64
    ensures DecodeGroups([Digit(v0), Digit(v1), '=', '=']) == Some([First(v0, v1)])
    ensures DecodeGroups([Digit(v0), Digit(v1), Digit(v2), '=']) == Some([First(v0, v1), Second(v1, v2)])
  {
    assert [Digit(v0), Digit(v1), '=', '='][3..] == "=";
  }

  lemma {:induction false} DecodeEncode(s: string)
    requires IsBytes(s)
    ensures DecodeGroups(Encode(s)) == Some(s)
  {
    if |s| >= 3 {
      assert s == [s[0], s[1], s[2]] + s[3..];
      DecodeEncode(s[3..]);
      DecodeThree(s[0], s[1], s[2], s[3..]);
    } else if |s| == 2 {
      assert s == [s[0], s[1]];
      DecodeTwo(s[0], s[1]);
    } else if |s| == 1 {
      assert s == [s[0]];
      DecodeOne(s[0]);
    }
  }

  lemma DecodeOne(x: char)
    requires x as int < 256
    ensures DecodeGroups(Encode([x])) == Some([x])
  {
    PaddedGroups(Byte(x) / 4, Byte(x) % 4 * 16, 0);
    FirstByte(x, 0);
  }

  lemma DecodeTwo(x: char, y: char)
    requires x as int < 256 && y as int < 256
    ensures DecodeGroups(Encode([x, y])) == Some([x, y])
  {
    var a, b := Byte(x), Byte(y);
    PaddedGroups(a / 4, a % 4 * 16 + b / 16, b % 16 * 4);
    FirstByte(x, b / 16);
    SecondByte(y, a % 4, 0);
  }

  lemma EncodeThree(x: char, y: char, z: char, rest: string)
    ensures var a, b, c := Byte(x), Byte(y), Byte(z);
      Encode([x, y, z] + rest)
      == [Digit(a / 4), Digit(a % 4 * 16 + b / 16), Digit(b % 16 * 4 + c / 64), Digit(c % 64)] + Encode(rest)
  {
    var s := [x, y, z] + rest;
    assert s[0] == x && s[1] == y && s[2] == z && s[3..] == rest;
  }

  lemma DecodeThree(x: char, y: char, z: char, rest: string)
    requires x as int < 256 && y as int < 256 && z as int < 256
    ensures DecodeGroups(Encode([x, y, z] + rest)) == Before([x, y, z], DecodeGroups(Encode(rest)))
  {
    hide Encode, DecodeGroups, First, Second, Third;
    var a, b, c := Byte(x), Byte(y), Byte(z);
    EncodeThree(x, y, z, rest);
    FullGroup(a / 4, a % 4 * 16 + b / 16, b % 16 * 4 + c / 64, c % 64, Encode(rest));
    FirstByte(x, b / 16);
    SecondByte(y, a % 4, c / 64);
    ThirdByte(z, b % 16);
  }

  // ------------------------------------------------------------- the entry

  /** The fields of the JSON object; an empty one is left out. */
  datatype Fields = Fields(username: string, password: string, email: string, auth: string)

  function EncodeAuth(username: string, password: string): string {
    Encode(username + ":" + password)
  }

  datatype Credentials = Credentials(username: string, password: string)

  function ColonAt(s: string): (i: nat)
    ensures i <= |s| && ':' !in s[..i] && (i < |s| ==> s[i] == ':')
  {
    if s == "" || s[0] == ':' then 0 else 1 + ColonAt(s[1..])
  }

  /** Split at the first colon; without one it is an error. */
  function SplitAuth(s: string): Option<Credentials> {
    var i := ColonAt(s);
    if i == |s| then None else Some(Credentials(s[..i], s[i + 1..]))
  }

  function DecodeAuth(field: string): Option<Credentials> {
    var decoded := Decode(field);
    if decoded.None? then None else SplitAuth(decoded.value)
  }

  class DockerConfigEntry {
    var username: string
    var password: string
    var email: string

    constructor (username: string, password: string, email: string)
      ensures this.username == username && this.password == password && this.email == email
    {
      this.username, this.password, this.email := username, password, email;
    }

    /** Whoever reads only the auth field gets the user up to its first colon. */
    method Marshal() returns (f: Fields)
      ensures f == Fields(username, password, email, EncodeAuth(username, password))
      ensures IsBytes(username) && IsBytes(password) ==>
        f.auth != "" && DecodeAuth(f.auth) == Some(Parted(username, password))
    {
      f := Fields(username, password, email, "");
      f := f.(auth := EncodeAuth(username, password));
      if IsBytes(username) && IsBytes(password) {
        AuthDecodes(username, password);
      }
    }

    /** The auth field, if there is one, overrides the two others; when it is wrong they end
        up empty. */
    method Unmarshal(f: Fields) returns (ok: bool)
      modifies this
      ensures email == f.email
      ensures f.auth == "" ==> ok && username == f.username && password == f.password
      ensures f.auth != "" ==> ok == DecodeAuth(f.auth).Some?
      ensures f.auth != "" ==>
        Credentials(username, password) == if ok then DecodeAuth(f.auth).value else Credentials("", "")
    {
      username, password, email := f.username, f.password, f.email;
      if f.auth == "" {
        return true;
      }
      var c := DecodeAuth(f.auth);
      username, password := "", "";
      if c.Some? {
        username, password := c.value.username, c.value.password;
      }
      return c.Some?;
    }
  }

  lemma FirstColon(a: string, b: string)
    requires ':' !in a
    ensures ColonAt(a + ":" + b) == |a|
    ensures (a + ":" + b)[..|a|] == a && (a + ":" + b)[|a| + 1..] == b
  {
    var s := a + ":" + b;
    assert s[|a|] == ':';
    assert forall j :: 0 <= j < |a| ==> s[j] == a[j] && a[j] in a;
    ColonNotAfter(s, |a|);
  }

  lemma {:induction false} ColonNotAfter(s: string, j: nat)
    requires j < |s| && s[j] == ':'
    ensures ColonAt(s) <= j
  {
    if j > 0 && s[0] != ':' {
      ColonNotAfter(s[1..], j - 1);
    }
  }

  lemma DecodeUndoesEncode(s: string)
    requires IsBytes(s) && s != ""
    ensures Encode(s) != "" && Decode(Encode(s)) == Some(s)
  {
    NoNewline(s, '\r');
    NoNewline(s, '\n');
    NothingToDrop(Encode(s));
    DecodeEncode(s);
  }

  /** What stands for a pair after the split at the first colon. */
  function Parted(username: string, password: string): Credentials {
    var i := ColonAt(username);
    if i == |username| then Credentials(username, password)
    else Credentials(username[..i], username[i + 1..] + ":" + password)
  }

  lemma SplitIsParted(username: string, password: string)
    ensures SplitAuth(username + ":" + password) == Some(Parted(username, password))
  {
    var i := ColonAt(username);
    if i == |username| {
      assert username[..i] == username;
      FirstColon(username, password);
    } else {
      var a, b := username[..i], username[i + 1..] + ":" + password;
      assert username + ":" + password == a + ":" + b;
      FirstColon(a, b);
    }
  }

  /** An auth field decodes to the user up to its first colon; what follows it goes to the
      password. */
  lemma AuthDecodes(username: string, password: string)
    requires IsBytes(username) && IsBytes(password)
    ensures EncodeAuth(username, password) != ""
    ensures DecodeAuth(EncodeAuth(username, password)) == Some(Parted(username, password))
  {
    DecodeUndoesEncode(username + ":" + password);
    SplitIsParted(username, password);
  }

  /** Marshalling and then unmarshalling gives the same user and password just when the user
      has no colon. */
  lemma RoundTripIff(username: string, password: string)
    requires IsBytes(username) && IsBytes(password)
    ensures DecodeAuth(EncodeAuth(username, password)) == Some(Credentials(username, password)) <==> ':' !in username
  {
    AuthDecodes(username, password);
    var i := ColonAt(username);
    if i < |username| {
      assert |username[..i]| < |username|;
    }
  }

  /** The same through the entries themselves, whatever the receiver held before. */
  method MarshalThenUnmarshal(entry: DockerConfigEntry, receiver: DockerConfigEntry) returns (ok: bool)
    requires entry != receiver && IsBytes(entry.username) && IsBytes(entry.password)
    modifies receiver
    ensures ok && receiver.email == entry.email
    ensures receiver.username == entry.username && receiver.password == entry.password <==> ':' !in entry.username
  {
    var f := entry.Marshal();
    RoundTripIff(entry.username, entry.password);
    ok := receiver.Unmarshal(f);
  }
}
