/** Words, lines and decimal numbers as C++ streams read and write them. */
module Text {
  import opened Wrappers

  // ---- Words ----

  predicate IsSpace(c: char) { c == ' ' || '\t' <= c <= '\r' }

  predicate Word(s: string) { s != "" && forall i :: 0 <= i < |s| ==> !IsSpace(s[i]) }

  function SkipSpace(s: string): (r: string)
    ensures |r| <= |s| && (r == "" || !IsSpace(r[0]))
  {
    if s != "" && IsSpace(s[0]) then SkipSpace(s[1..]) else s
  }

  function WordLen(s: string): (n: nat)
    ensures n <= |s| && (forall i :: 0 <= i < n ==> !IsSpace(s[i])) && (n < |s| ==> IsSpace(s[n]))
  {
    if s == "" || IsSpace(s[0]) then 0 else 1 + WordLen(s[1..])
  }

  // What repeated extraction of strings yields until the stream ends.
  function Tokens(s: string): seq<string>
    decreases |s|
  {
    var t := SkipSpace(s);
    if t == "" then []
    else
      var n := WordLen(t);
      [t[..n]] + Tokens(t[n..])
  }

  lemma TokensWord(w: string, rest: string)
    requires Word(w) && (rest == "" || IsSpace(rest[0]))
    ensures Tokens(w + rest) == [w] + Tokens(rest)
  {
    var s := w + rest;
    var n := WordLen(s);
    assert forall i :: 0 <= i < |w| ==> s[i] == w[i];
    assert rest != "" ==> s[|w|] == rest[0];
    assert s[..|w|] == w && s[|w|..] == rest;
  }

  lemma TokensSpace(rest: string)
    ensures Tokens(" " + rest) == Tokens(rest)
  {
    assert (" " + rest)[1..] == rest;
  }

  // Words, each behind a blank.
  function Spaced(ws: seq<string>): string
  {
    if ws == [] then "" else " " + (ws[0] + Spaced(ws[1..]))
  }

  lemma {:induction false} TokensSpaced(ws: seq<string>)
    requires forall i :: 0 <= i < |ws| ==> Word(ws[i])
    ensures Tokens(Spaced(ws)) == ws
  {
    if ws != [] {
      TokensSpaced(ws[1..]);
      TokensSpace(ws[0] + Spaced(ws[1..]));
      TokensWord(ws[0], Spaced(ws[1..]));
    }
  }

  lemma SpacedTwo(a: string, b: string)
    ensures Spaced([a, b]) == " " + a + " " + b
  {
    assert [a, b][1..] == [b] && [b][1..] == [];
    assert Spaced([b]) == " " + (b + "") == " " + b;
    assert " " + (a + (" " + b)) == " " + a + " " + b;
  }

  lemma SpacedCons(a: string, ws: seq<string>)
    ensures Spaced([a] + ws) == " " + a + Spaced(ws)
  {
    assert ([a] + ws)[1..] == ws;
  }

  // ---- Lines ----

  predicate OneLine(s: string) { s != "" && forall i :: 0 <= i < |s| ==> s[i] != '\n' }

  lemma WordsAreOneLine(a: string, b: string, c: string, d: string)
    requires Word(a) && Word(b) && Word(c) && Word(d)
    ensures OneLine(a + " " + b + " " + c + " " + d)
  {
    OneLineGlue(a, b);
    OneLineGlue(a + " " + b, c);
    OneLineGlue(a + " " + b + " " + c, d);
  }

  lemma OneLineGlue(x: string, w: string)
    requires (OneLine(x) || Word(x)) && Word(w)
    ensures OneLine(x + " " + w)
  {
  }

  function LineLen(s: string): (n: nat)
    ensures n <= |s| && (forall i :: 0 <= i < n ==> s[i] != '\n') && (n < |s| ==> s[n] == '\n')
  {
    if s == "" || s[0] == '\n' then 0 else 1 + LineLen(s[1..])
  }

  // What repeated getline yields until the stream ends.
  function Lines(s: string): seq<string>
    decreases |s|
  {
    if s == "" then []
    else
      var n := LineLen(s);
      [s[..n]] + if n == |s| then [] else Lines(s[n + 1..])
  }

  lemma LinesCons(l: string, rest: string)
    requires OneLine(l)
    ensures Lines(l + "\n" + rest) == [l] + Lines(rest)
  {
    var s := l + "\n" + rest;
    assert forall i :: 0 <= i < |l| ==> s[i] == l[i];
    assert s[|l|] == '\n';
    assert LineLen(s) == |l| && s[..|l|] == l && s[|l| + 1..] == rest;
  }

  lemma LinesOne(l: string)
    requires OneLine(l)
    ensures Lines(l) == [l]
  {
    assert LineLen(l) == |l| && l[..|l|] == l;
  }

  // Lines hung below a first one, each behind its newline.
  function Hang(ls: seq<string>): string
  {
    if ls == [] then "" else "\n" + ls[0] + Hang(ls[1..])
  }

  lemma {:induction false} HangSnoc(ls: seq<string>, l: string)
    ensures Hang(ls + [l]) == Hang(ls) + "\n" + l
  {
    if ls == [] {
      assert ([] + [l])[1..] == [];
    } else {
      HangSnoc(ls[1..], l);
      assert (ls + [l])[1..] == ls[1..] + [l];
    }
  }

  lemma HangStep(first: string, ls: seq<string>)
    requires ls != []
    ensures first + Hang(ls) == first + "\n" + (ls[0] + Hang(ls[1..]))
  {
    assert Hang(ls) == ("\n" + ls[0]) + Hang(ls[1..]);
    Assoc("\n", ls[0], Hang(ls[1..]));
    Assoc(first, "\n", ls[0] + Hang(ls[1..]));
  }

  lemma {:induction false} LinesHang(first: string, ls: seq<string>)
    requires OneLine(first) && forall i :: 0 <= i < |ls| ==> OneLine(ls[i])
    ensures Lines(first + Hang(ls)) == [first] + ls
    decreases |ls|
  {
    if ls == [] {
      LinesOne(first);
      assert first + "" == first;
    } else {
      LinesHang(ls[0], ls[1..]);
      LinesCons(first, ls[0] + Hang(ls[1..]));
      HangStep(first, ls);
      HeadTail(ls);
    }
  }

  // ---- Decimal numbers ----

  predicate IsDigit(c: char) { '0' <= c <= '9' }

  ghost predicate Digits(s: string) { forall i :: 0 <= i < |s| ==> IsDigit(s[i]) }

  function DigitOf(d: nat): (c: char)
    requires d < 10
    ensures IsDigit(c) && c as int - '0' as int == d
  {
    ('0' as int + d) as char
  }

  function RenderNat(n: nat): (s: string)
    ensures s != ""
  {
    if n < 10 then [DigitOf(n)] else RenderNat(n / 10) + [DigitOf(n % 10)]
  }

  function Render(n: int): (s: string)
    ensures s != ""
  {
    if n < 0 then "-" + RenderNat(-n) else RenderNat(n)
  }

  lemma {:induction false} RenderNatIsDigits(n: nat)
    ensures Digits(RenderNat(n))
  {
    if n >= 10 {
      RenderNatIsDigits(n / 10);
    }
  }

  lemma RenderIsWord(n: int)
    ensures Word(Render(n)) && OneLine(Render(n))
  {
    RenderNatIsDigits(if n < 0 then -n else n);
  }

  function DigitsLen(s: string): (n: nat)
    ensures n <= |s| && (forall i :: 0 <= i < n ==> IsDigit(s[i])) && (n < |s| ==> !IsDigit(s[n]))
  {
    if s == "" || !IsDigit(s[0]) then 0 else 1 + DigitsLen(s[1..])
  }

  // The value of the digits of s, read from the left; anything else counts for nothing.
  function NatOf(s: string): nat
  {
    if s == "" then 0
    else 10 * NatOf(s[..|s| - 1]) + if IsDigit(s[|s| - 1]) then s[|s| - 1] as int - '0' as int else 0
  }

  predicate Signed(s: string) { s != "" && (s[0] == '-' || s[0] == '+') }

  // The longest prefix that is a sign and digits, its value, and whether it has a digit at all: what
  // strtol reads, and what extraction of a long reads.
  function NumberLen(s: string): (n: nat)
    ensures n <= |s|
  {
    if Signed(s) then 1 + DigitsLen(s[1..]) else DigitsLen(s)
  }

  predicate HasNumber(s: string) { NumberLen(s) > if Signed(s) then 1 else 0 }

  function NumberOf(s: string): int
  {
    if !Signed(s) then NatOf(s[..DigitsLen(s)])
    else
      var v: int := NatOf(s[1..][..DigitsLen(s[1..])]);
      if s[0] == '-' then -v else v
  }

  // strtol also passes over blanks in front.
  function Strtol(s: string): int { NumberOf(SkipSpace(s)) }

  lemma {:induction false} NatOfRender(n: nat)
    ensures NatOf(RenderNat(n)) == n
  {
    if n < 10 {
      assert RenderNat(n)[..0] == "";
    } else {
      NatOfRender(n / 10);
      assert RenderNat(n)[..|RenderNat(n)| - 1] == RenderNat(n / 10);
    }
  }

  lemma DigitsEnd(d: string, rest: string)
    requires Digits(d) && (rest == "" || !IsDigit(rest[0]))
    ensures DigitsLen(d + rest) == |d| && (d + rest)[..|d|] == d
  {
    var s := d + rest;
    assert forall i :: 0 <= i < |d| ==> s[i] == d[i];
    assert rest != "" ==> s[|d|] == rest[0];
  }

  lemma NatRender(n: nat, rest: string)
    requires rest == "" || !IsDigit(rest[0])
    ensures var s := RenderNat(n) + rest;
      !Signed(s) && DigitsLen(s) == |RenderNat(n)| && NatOf(s[..DigitsLen(s)]) == n && s[DigitsLen(s)..] == rest
  {
    NatOfRender(n);
    RenderNatIsDigits(n);
    DigitsEnd(RenderNat(n), rest);
    assert IsDigit((RenderNat(n) + rest)[0]);
  }

  // A rendered number is read back, up to the first character that is no digit.
  lemma NumberRender(n: int, rest: string)
    requires rest == "" || !IsDigit(rest[0])
    ensures var s := Render(n) + rest;
      HasNumber(s) && NumberOf(s) == n && NumberLen(s) == |Render(n)| && s[NumberLen(s)..] == rest
  {
    if n < 0 {
      NegativeRender(-n, rest);
    } else {
      NatRender(n, rest);
    }
  }

  lemma StrtolRender(n: int)
    ensures Strtol(Render(n)) == n
  {
    NumberRender(n, "");
    RenderIsWord(n);
    assert Render(n) + "" == Render(n);
  }

  lemma NegativeRender(m: nat, rest: string)
    requires rest == "" || !IsDigit(rest[0])
    ensures var s := "-" + RenderNat(m) + rest;
      HasNumber(s) && NumberOf(s) + m == 0 && NumberLen(s) == 1 + |RenderNat(m)| && s[NumberLen(s)..] == rest
  {
    NatRender(m, rest);
    var s := "-" + RenderNat(m) + rest;
    assert s[0] == '-' && s[1..] == RenderNat(m) + rest;
    assert s[1 + |RenderNat(m)|..] == rest;
  }
}
