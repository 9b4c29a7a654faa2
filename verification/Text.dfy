// The string operations the assembler is written in, on ASCII text.
module Text {
  import opened Prelude

  // The ASCII characters with the White_Space property.
  predicate IsSpace(c: char) {
    c == ' ' || '\t' <= c <= '\r'
  }

  function TrimStart(s: string): string {
    if s != "" && IsSpace(s[0]) then TrimStart(s[1..]) else s
  }

  function TrimEnd(s: string): string {
    if s != "" && IsSpace(s[|s| - 1]) then TrimEnd(s[..|s| - 1]) else s
  }

  function Trim(s: string): string {
    TrimEnd(TrimStart(s))
  }

  // `trim_end_matches(c)` and `trim_start_matches(c)`
  function DropEnd(s: string, c: char): string {
    if s != "" && s[|s| - 1] == c then DropEnd(s[..|s| - 1], c) else s
  }

  function DropStart(s: string, c: char): string {
    if s != "" && s[0] == c then DropStart(s[1..], c) else s
  }

  function StripPrefix(s: string, p: string): Option<string> {
    if p <= s then Some(s[|p|..]) else None
  }

  function ToUpper(s: string): (r: string)
    ensures |r| == |s|
  {
    if s == "" then ""
    else
      [if 'a' <= s[0] <= 'z' then (s[0] as int - 32) as char else s[0]] + ToUpper(s[1..])
  }

  // How many characters the leading word has.
  function WordLength(s: string): (n: nat)
    ensures n <= |s| && (s != "" && !IsSpace(s[0]) ==> 0 < n)
    ensures forall i :: 0 <= i < n ==> !IsSpace(s[i])
    ensures n < |s| ==> IsSpace(s[n])
  {
    if s == "" || IsSpace(s[0]) then 0 else 1 + WordLength(s[1..])
  }

  lemma {:induction false} TrimStartShortens(s: string)
    ensures |TrimStart(s)| <= |s|
    ensures TrimStart(s) != "" ==> !IsSpace(TrimStart(s)[0])
  {
    if s != "" && IsSpace(s[0]) {
      TrimStartShortens(s[1..]);
    }
  }

  function SplitWhitespace(s: string): seq<string>
    decreases |s|
  {
    TrimStartShortens(s);
    var t := TrimStart(s);
    if t == "" then [] else [t[..WordLength(t)]] + SplitWhitespace(t[WordLength(t)..])
  }

  // The lines of a text; a line break belongs to the line before it.
  function Lines(s: string): seq<string>
    decreases |s|
  {
    if s == "" then []
    else
      var n := IndexOf(s, '\n');
      if n == |s| then [s]
      else
        [if n > 0 && s[n - 1] == '\r' then s[..n - 1] else s[..n]] + Lines(s[n + 1..])
  }

  // ---------------------------------------------------------------------
  // Numbers
  // ---------------------------------------------------------------------

  function DigitValue(c: char): Option<nat> {
    if '0' <= c <= '9' then Some(c as int - '0' as int)
    else if 'a' <= c <= 'z' then Some(c as int - 'a' as int + 10)
    else if 'A' <= c <= 'Z' then Some(c as int - 'A' as int + 10)
    else None
  }

  function Digits(s: string, radix: nat): Option<nat> {
    if s == "" then Some(0)
    else
      match (Digits(s[..|s| - 1], radix), DigitValue(s[|s| - 1]))
      case (Some(n), Some(d)) => if d < radix then Some(n * radix + d) else None
      case _ => None
  }

  // `u64::from_str_radix`: one optional plus sign, at least one digit, no overflow.
  function FromRadix(s: string, radix: nat): Option<u64> {
    var digits := if "+" <= s then s[1..] else s;
    if digits == "" then None
    else
      match Digits(digits, radix)
      case Some(n) => if n < TWO_64 then Some(n) else None
      case None => None
  }

  function HexDigit(d: nat): (c: char)
    requires d < 16
    ensures DigitValue(c) == Some(d)
    ensures Clean([c])
  {
    if d < 10 then ('0' as int + d) as char else ('a' as int + d - 10) as char
  }

  function Hex(n: nat): (s: string)
    ensures s != "" && Clean(s) && s[0] != '+'
  {
    if n < 16 then [HexDigit(n)] else Hex(n / 16) + [HexDigit(n % 16)]
  }

  lemma {:induction false} HexRoundTrip(n: nat)
    ensures Digits(Hex(n), 16) == Some(n)
  {
    if n < 16 {
      assert Digits("", 16) == Some(0);
      assert Hex(n)[..0] == "";
    } else {
      HexRoundTrip(n / 16);
      assert Hex(n)[..|Hex(n)| - 1] == Hex(n / 16);
    }
  }

  // ---------------------------------------------------------------------
  // Words
  // ---------------------------------------------------------------------

  // No white space and no comment character.
  predicate Clean(s: string) {
    forall c :: c in s ==> !IsSpace(c) && c != ';' && c != '/'
  }

  predicate Words(ws: seq<string>) {
    forall i :: 0 <= i < |ws| ==> ws[i] != "" && Clean(ws[i])
  }

  function Joined(ws: seq<string>): string {
    if ws == [] then ""
    else if |ws| == 1 then ws[0]
    else ws[0] + " " + Joined(ws[1..])
  }

  lemma {:induction false} WordLengthOf(w: string, rest: string)
    requires Clean(w) && (rest == "" || IsSpace(rest[0]))
    ensures WordLength(w + rest) == |w|
  {
    if w == "" {
      assert w + rest == rest;
    } else {
      assert w[0] in w && (w + rest)[1..] == w[1..] + rest;
      CleanTail(w);
      WordLengthOf(w[1..], rest);
    }
  }

  lemma CleanTail(s: string)
    requires Clean(s) && s != ""
    ensures Clean(s[1..])
  {
    forall c | c in s[1..]
      ensures !IsSpace(c) && c != ';' && c != '/'
    {
      assert s == [s[0]] + s[1..];
      assert c in s;
    }
  }

  lemma SplitStep(w: string, rest: string)
    requires w != "" && Clean(w) && (rest == "" || IsSpace(rest[0]))
    ensures SplitWhitespace(w + rest) == [w] + SplitWhitespace(rest)
  {
    assert w[0] in w;
    assert TrimStart(w + rest) == w + rest;
    WordLengthOf(w, rest);
    assert (w + rest)[..|w|] == w && (w + rest)[|w|..] == rest;
  }

  lemma SplitSkipsSpace(s: string)
    ensures SplitWhitespace(" " + s) == SplitWhitespace(s)
  {
    assert (" " + s)[1..] == s;
    assert TrimStart(" " + s) == TrimStart(s);
  }

  // Words joined by spaces split into the same words.
  lemma {:induction false} SplitJoined(ws: seq<string>)
    requires Words(ws)
    ensures SplitWhitespace(Joined(ws)) == ws
  {
    if |ws| == 1 {
      SplitStep(ws[0], "");
      assert ws[0] + "" == ws[0];
    } else if |ws| > 1 {
      var rest := " " + Joined(ws[1..]);
      assert Joined(ws) == ws[0] + rest;
      SplitStep(ws[0], rest);
      SplitSkipsSpace(Joined(ws[1..]));
      SplitJoined(ws[1..]);
    }
  }

  // Such a line needs no trimming and holds no comment and no line break.
  lemma {:induction false} JoinedIsPlain(ws: seq<string>)
    requires Words(ws) && ws != []
    ensures var s := Joined(ws);
      && s != "" && !IsSpace(s[0]) && s[0] != ';' && s[0] != '/' && !IsSpace(s[|s| - 1])
      && forall c :: c in s ==> c != ';' && c != '\n' && c != '\r'
  {
    assert ws[0][0] in ws[0] && ws[0][|ws[0]| - 1] in ws[0];
    if |ws| > 1 {
      JoinedIsPlain(ws[1..]);
      assert Joined(ws) == ws[0] + " " + Joined(ws[1..]);
    }
  }

  lemma TrimPlain(s: string)
    requires s != "" && !IsSpace(s[0]) && !IsSpace(s[|s| - 1])
    ensures Trim(s) == s
  {
  }
}
