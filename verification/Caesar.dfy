/** The cipher of the first version: letters move three places in their case, digits three places. */
module Caesar {
  import opened Text

  // Rotation by some places within the 26 letters, or the 10 digits, that start at the given base.
  function Letter(c: char, base: char, places: nat): (r: char)
    requires base <= c && c as int < base as int + 26 <= 128
    ensures base <= r && r as int < base as int + 26
  {
    (base as int + (c as int - base as int + places) % 26) as char
  }

  function Digit(c: char, places: nat): (r: char)
    requires '0' <= c <= '9'
    ensures '0' <= r <= '9'
  {
    ('0' as int + (c as int - '0' as int + places) % 10) as char
  }

  function EncChar(c: char): char
  {
    if 'a' <= c <= 'z' then Letter(c, 'a', 3)
    else if 'A' <= c <= 'Z' then Letter(c, 'A', 3)
    else if '0' <= c <= '9' then Digit(c, 3)
    else c
  }

  function DecChar(c: char): char
  {
    if 'a' <= c <= 'z' then Letter(c, 'a', 23)
    else if 'A' <= c <= 'Z' then Letter(c, 'A', 23)
    else if '0' <= c <= '9' then Digit(c, 7)
    else c
  }

  function Enc(s: string): (e: string)
    ensures |e| == |s|
  {
    seq(|s|, i requires 0 <= i < |s| => EncChar(s[i]))
  }

  function Dec(s: string): (d: string)
    ensures |d| == |s|
  {
    seq(|s|, i requires 0 <= i < |s| => DecChar(s[i]))
  }

  lemma LetterBack(c: char, base: char, there: nat, back: nat)
    requires base <= c && c as int < base as int + 26 <= 128 && there + back == 26
    ensures Letter(Letter(c, base, there), base, back) == c
  {
    var k := c as int - base as int;
    assert ((k + there) % 26 + back) % 26 == k;
  }

  lemma DigitBack(c: char, there: nat, back: nat)
    requires '0' <= c <= '9' && there + back == 10
    ensures Digit(Digit(c, there), back) == c
  {
    var k := c as int - '0' as int;
    assert ((k + there) % 10 + back) % 10 == k;
  }

  lemma EncDecChar(c: char)
    ensures DecChar(EncChar(c)) == c && EncChar(DecChar(c)) == c
    ensures IsSpace(EncChar(c)) == IsSpace(c)
  {
    if 'a' <= c <= 'z' {
      LetterBack(c, 'a', 3, 23);
      LetterBack(c, 'a', 23, 3);
    } else if 'A' <= c <= 'Z' {
      LetterBack(c, 'A', 3, 23);
      LetterBack(c, 'A', 23, 3);
    } else if '0' <= c <= '9' {
      DigitBack(c, 3, 7);
      DigitBack(c, 7, 3);
    }
  }

  // Deciphering and enciphering undo each other, and words stay words.
  lemma EncDec(s: string)
    ensures Dec(Enc(s)) == s && Enc(Dec(s)) == s
    ensures Word(Enc(s)) == Word(s)
  {
    forall i | 0 <= i < |s|
      ensures DecChar(EncChar(s[i])) == s[i] && EncChar(DecChar(s[i])) == s[i] && IsSpace(Enc(s)[i]) == IsSpace(s[i])
    {
      EncDecChar(s[i]);
    }
    assert forall i :: 0 <= i < |s| ==> Dec(Enc(s))[i] == s[i];
    assert forall i :: 0 <= i < |s| ==> Enc(Dec(s))[i] == s[i];
  }

  // So names match exactly when their ciphertexts do.
  lemma EncInjective(a: string, b: string)
    ensures Enc(a) == Enc(b) <==> a == b
  {
    EncDec(a);
    EncDec(b);
  }

  method EncStr(s: string) returns (o: string)
    ensures o == Enc(s)
  {
    o := "";
    for i := 0 to |s|
      invariant o == Enc(s)[..i]
    {
      o := o + [EncChar(s[i])];
    }
  }

  method DecStr(s: string) returns (o: string)
    ensures o == Dec(s)
  {
    o := "";
    for i := 0 to |s|
      invariant o == Dec(s)[..i]
    {
      o := o + [DecChar(s[i])];
    }
  }

  // Three places forward, round the end of the alphabet or of the digits.
  lemma EncCharIs(c: char)
    ensures EncChar(c) as int ==
            if 'a' <= c <= 'w' || 'A' <= c <= 'W' || '0' <= c <= '6' then c as int + 3
            else if 'x' <= c <= 'z' || 'X' <= c <= 'Z' then c as int - 23
            else if '7' <= c <= '9' then c as int - 7
            else c as int
  {
  }
}
