/** What the encoder behind the size check writes can be read back: strings, numbers and UTF-8. */
module PlanText {
  import opened PlanBudget

  // ---------------------------------------------------------------- strings

  function HexValue(c: char): nat {
    if '0' <= c <= '9' then c as int - '0' as int
    else if 'a' <= c <= 'f' then c as int - 'a' as int + 10
    else 16
  }

  /** The character a two-character escape stands for. */
  function Unescaped(c: char): Result {
    if c == '"' || c == '\\' then Char(c)
    else if c == 'n' then Char('\n')
    else if c == 'r' then Char('\r')
    else if c == 't' then Char('\t')
    else if c == 'b' then Char(8 as char)
    else if c == 'f' then Char(12 as char)
    else Bad
  }

  datatype Result = Char(c: char) | Bad

  /** The content of a JSON string and what follows its closing quote. */
  datatype Unquoted = Unquoted(content: string, rest: string) | Broken

  function Prepend(c: char, u: Unquoted): Unquoted {
    if u.Unquoted? then Unquoted([c] + u.content, u.rest) else Broken
  }

  /** Reads a JSON string from behind its opening quote. Of the long escapes it knows those below 256. */
  function Unquote(s: string): Unquoted {
    if s == "" then Broken
    else if s[0] == '"' then Unquoted("", s[1..])
    else if s[0] != '\\' then (if s[0] < ' ' then Broken else Prepend(s[0], Unquote(s[1..])))
    else if |s| < 2 then Broken
    else if s[1] != 'u' then
      (if Unescaped(s[1]).Char? then Prepend(Unescaped(s[1]).c, Unquote(s[2..])) else Broken)
    else if |s| < 6 || s[2] != '0' || s[3] != '0' || HexValue(s[4]) > 15 || HexValue(s[5]) > 15 then Broken
    else Prepend((16 * HexValue(s[4]) + HexValue(s[5])) as char, Unquote(s[6..]))
  }

  lemma Associates(a: string, b: string, c: string)
    ensures (a + b) + c == a + (b + c)
  {
  }

  lemma {:induction false} EscapeEnd(s: string, c: char)
    ensures EscapeAll(s + [c]) == EscapeAll(s) + Escape(c)
  {
    assert (s + [c])[..|s + [c]| - 1] == s;
  }

  lemma {:induction false} EscapeFront(c: char, s: string)
    ensures EscapeAll([c] + s) == Escape(c) + EscapeAll(s)
  {
    if s == "" {
      EscapeEnd("", c);
      assert "" + [c] == [c] + s;
    } else {
      var init, last := s[..|s| - 1], s[|s| - 1];
      assert s == init + [last] && [c] + s == ([c] + init) + [last];
      EscapeFront(c, init);
      EscapeEnd([c] + init, last);
      EscapeEnd(init, last);
      Associates(Escape(c), EscapeAll(init), Escape(last));
    }
  }

  lemma HexReads(d: nat)
    ensures d < 16 ==>
              HexValue(HEX[d]) == d
  {
  }

  lemma {:induction false} ReadsPlain(c: char, t: string)
    ensures ' ' <= c && c != '"' && c != '\\' ==>
              Unquote([c] + t) == Prepend(c, Unquote(t))
  {
    if ' ' <= c && c != '"' && c != '\\' {
      assert ([c] + t)[1..] == t;
    }
  }

  lemma {:induction false} ReadsShort(e: char, t: string)
    ensures Unescaped(e).Char? ==>
              Unquote(['\\', e] + t) == Prepend(Unescaped(e).c, Unquote(t))
  {
    if Unescaped(e).Char? {
      assert (['\\', e] + t)[2..] == t;
    }
  }

  lemma {:induction false} ReadsLong(x: char, y: char, t: string)
    ensures HexValue(x) < 16 && HexValue(y) < 16 ==>
              Unquote(['\\', 'u', '0', '0', x, y] + t) == Prepend((16 * HexValue(x) + HexValue(y)) as char, Unquote(t))
  {
    if HexValue(x) < 16 && HexValue(y) < 16 {
      assert (['\\', 'u', '0', '0', x, y] + t)[6..] == t;
    }
  }

  lemma {:induction false} EscapeLong(c: char)
    ensures c < ' ' && c !in ['\n', '\r', '\t', 8 as char, 12 as char] ==>
              Escape(c) == ['\\', 'u', '0', '0', HEX[c as int / 16], HEX[c as int % 16]]
  {
  }

  lemma {:induction false} ReadsControl(c: char, t: string)
    requires c < ' ' && c !in ['\n', '\r', '\t', 8 as char, 12 as char]
    ensures Unquote(Escape(c) + t) == Prepend(c, Unquote(t))
  {
    EscapeLong(c);
    HexReads(c as int / 16);
    HexReads(c as int % 16);
    ReadsLong(HEX[c as int / 16], HEX[c as int % 16], t);
  }

  lemma {:induction false} EscapePairs(c: char)
    ensures (c == '"' || c == '\\' || c in ['\n', '\r', '\t', 8 as char, 12 as char]) ==>
              |Escape(c)| == 2 && Escape(c)[0] == '\\' && Unescaped(Escape(c)[1]) == Char(c)
  {
  }

  lemma {:induction false} ReadsEscape(c: char, t: string)
    ensures Unquote(Escape(c) + t) == Prepend(c, Unquote(t))
  {
    if c == '"' || c == '\\' || c in ['\n', '\r', '\t', 8 as char, 12 as char] {
      EscapePairs(c);
      assert Escape(c) == ['\\', Escape(c)[1]];
      ReadsShort(Escape(c)[1], t);
    } else if c < ' ' {
      ReadsControl(c, t);
    } else {
      EscapePlain(c);
      ReadsPlain(c, t);
    }
  }

  /** A quoted string reads back as itself, whatever follows it. */
  lemma {:induction false} QuoteReadsBack(s: string, rest: string)
    ensures Unquote(EscapeAll(s) + ("\"" + rest)) == Unquoted(s, rest)
  {
    if s == "" {
      assert EscapeAll(s) + ("\"" + rest) == "\"" + rest && ("\"" + rest)[1..] == rest;
    } else {
      var c, tail := s[0], s[1..];
      assert s == [c] + tail;
      EscapeFront(c, tail);
      Associates(Escape(c), EscapeAll(tail), "\"" + rest);
      QuoteReadsBack(tail, rest);
      StepReadsBack(c, EscapeAll(tail) + ("\"" + rest));
    }
  }

  lemma {:induction false} StepReadsBack(c: char, t: string)
    ensures Unquote(t).Unquoted? ==>
              Unquote(Escape(c) + t) == Unquoted([c] + Unquote(t).content, Unquote(t).rest)
  {
    ReadsEscape(c, t);
  }

  // ---------------------------------------------------------------- numbers

  function NumberFrom(s: string): nat {
    if s == "" then 0 else 10 * NumberFrom(s[..|s| - 1]) + HexValue(s[|s| - 1])
  }

  /** A counter reads back as itself. */
  lemma {:induction false} DigitsReadBack(n: nat)
    ensures NumberFrom(Digits(n)) == n
  {
    if n < 10 {
      HexReads(n);
      assert [HEX[n]][..0] == "";
    } else {
      HexReads(n % 10);
      DigitsReadBack(n / 10);
      var s := Digits(n);
      assert s[..|s| - 1] == Digits(n / 10) && s[|s| - 1] == HEX[n % 10];
    }
  }

  // ---------------------------------------------------------------- UTF-8

  /** The encoding of one character. */
  function Utf8(c: char): seq<int> {
    var n := c as int;
    if n < 0x80 then [n]
    else if n < 0x800 then [0xC0 + n / 64, 0x80 + n % 64]
    else if n < 0x1_0000 then [0xE0 + n / 4096, 0x80 + n / 64 % 64, 0x80 + n % 64]
    else [0xF0 + n / 262144, 0x80 + n / 4096 % 64, 0x80 + n / 64 % 64, 0x80 + n % 64]
  }

  /** The code point that starts a sequence of bytes, from the bits its first byte announces. */
  function CodePoint(bytes: seq<int>): int {
    if |bytes| == 1 then bytes[0]
    else if |bytes| == 2 then (bytes[0] - 0xC0) * 64 + bytes[1] - 0x80
    else if |bytes| == 3 then (bytes[0] - 0xE0) * 4096 + (bytes[1] - 0x80) * 64 + bytes[2] - 0x80
    else if |bytes| == 4 then
      (bytes[0] - 0xF0) * 262144 + (bytes[1] - 0x80) * 4096 + (bytes[2] - 0x80) * 64 + bytes[3] - 0x80
    else -1
  }

  /** A width is the number of bytes of an encoding that reads back. */
  lemma {:induction false} WidthMeans(c: char)
    ensures |Utf8(c)| == Width(c) && CodePoint(Utf8(c)) == c as int
    ensures forall i :: 0 <= i < |Utf8(c)| ==> 0 <= Utf8(c)[i] < 256
    ensures forall i :: 0 < i < |Utf8(c)| ==> 0x80 <= Utf8(c)[i] < 0xC0
  {
    var n := c as int;
    assert n / 4096 == n / 64 / 64 && n / 262144 == n / 4096 / 64;
  }
}
