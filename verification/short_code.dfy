/**
  Short-code generation (`generate_short_code`, app/app.py:85-99).

  The source joins `length` characters chosen by `random.choices` from
  `string.ascii_letters + string.digits`. Randomness is not modelled: a call
  is described by the sequence of indices it drew, one per character, so the
  generator becomes a total function from draws to a code.
*/
module ShortCode {

  /** `string.ascii_lowercase` */
  const AsciiLowercase: string := "abcdefghijklmnopqrstuvwxyz"
  /** `string.ascii_uppercase` */
  const AsciiUppercase: string := "ABCDEFGHIJKLMNOPQRSTUVWXYZ"
  /** `string.digits` */
  const Digits: string := "0123456789"

  /**
    `string.ascii_letters + string.digits`: the 26 lower-case letters, the
    26 upper-case letters and the 10 digits, each run in code-point order
    (AlphabetIsLettersThenDigits).
  */
  const Alphabet: string := CharRange('a', 26) + CharRange('A', 26) + CharRange('0', 10)

  /** The default `length` argument of `generate_short_code`. */
  const DefaultLength: nat := 6

  /** One draw of `random.choices`: a position in the 62-character alphabet. */
  type Draw = i: int | 0 <= i < 62

  /** An ASCII letter or decimal digit. */
  predicate IsAlphanumeric(c: char) {
    'a' <= c <= 'z' || 'A' <= c <= 'Z' || '0' <= c <= '9'
  }

  /**
    A code of the given length made only of ASCII letters and digits, which
    are exactly the alphabet's characters (AlphabetIsAlphanumeric).
  */
  predicate IsShortCode(code: string, length: nat) {
    |code| == length && forall i | 0 <= i < |code| :: IsAlphanumeric(code[i])
  }

  /**
    `''.join(random.choices(characters, k=length))` where the random source
    drew `draws`; the length of the code is the number of draws.
  */
  function GenerateShortCode(draws: seq<Draw>): (code: string)
    ensures IsShortCode(code, |draws|)
  {
    if draws == [] then ""
    else
      AlphabetAt(draws[0]);
      [Alphabet[draws[0]]] + GenerateShortCode(draws[1..])
  }

  /** The characters appear in draw order: the i-th character is the i-th draw. */
  lemma {:induction false} GenerateShortCodeAt(draws: seq<Draw>, i: nat)
    requires i < |draws|
    ensures GenerateShortCode(draws)[i] == Alphabet[draws[i]]
  {
    if i > 0 {
      GenerateShortCodeAt(draws[1..], i - 1);
    }
  }

  /** The characters from `lo` to `lo + n - 1`, in order. */
  function CharRange(lo: char, n: nat): (r: string)
    requires lo as int + n < 0xD800
    ensures |r| == n
    ensures forall i | 0 <= i < n :: r[i] as int == lo as int + i
  {
    seq(n, i requires 0 <= i < n => (lo as int + i) as char)
  }

  /** The alphabet spelled out is `ascii_lowercase + ascii_uppercase + digits`. */
  lemma AlphabetIsLettersThenDigits()
    ensures Alphabet == AsciiLowercase + AsciiUppercase + Digits
  {
    assert AsciiLowercase == CharRange('a', 26);
    assert AsciiUppercase == CharRange('A', 26);
    assert Digits == CharRange('0', 10);
  }

  /** The code point of each alphabet position. */
  lemma {:induction false} AlphabetAt(i: nat)
    requires i < 62
    ensures |Alphabet| == 62
    ensures IsAlphanumeric(Alphabet[i])
    ensures Alphabet[i] as int == (if i < 26 then 'a' as int + i
                                   else if i < 52 then 'A' as int + (i - 26)
                                   else '0' as int + (i - 52))
  {
    if i < 26 {
      assert Alphabet[i] == CharRange('a', 26)[i];
    } else if i < 52 {
      assert Alphabet[i] == CharRange('A', 26)[i - 26];
    } else {
      assert Alphabet[i] == CharRange('0', 10)[i - 52];
    }
  }

  /** Where an alphanumeric character sits in the alphabet. */
  function AlphabetIndex(c: char): (d: Draw)
    requires IsAlphanumeric(c)
    ensures Alphabet[d] == c
  {
    if 'a' <= c <= 'z' then
      var d := c as int - 'a' as int;
      AlphabetAt(d);
      d
    else if 'A' <= c <= 'Z' then
      var d := 26 + (c as int - 'A' as int);
      AlphabetAt(d);
      d
    else
      var d := 52 + (c as int - '0' as int);
      AlphabetAt(d);
      d
  }

  /**
    The alphabet is exactly the ASCII letters and digits, and its 62
    characters are pairwise distinct, so there are 62^length codes.
  */
  lemma AlphabetIsAlphanumeric()
    ensures |Alphabet| == 62
    ensures forall c :: c in Alphabet <==> IsAlphanumeric(c)
    ensures forall i, j | 0 <= i < j < |Alphabet| :: Alphabet[i] != Alphabet[j]
  {
    forall i | 0 <= i < |Alphabet|
      ensures IsAlphanumeric(Alphabet[i])
      ensures Alphabet[i] as int == (if i < 26 then 'a' as int + i
                                     else if i < 52 then 'A' as int + (i - 26)
                                     else '0' as int + (i - 52))
    {
      AlphabetAt(i);
    }
    forall c | IsAlphanumeric(c) ensures c in Alphabet {
      assert Alphabet[AlphabetIndex(c)] == c;
    }
  }

  /** The draws that produce a given well-formed code. */
  function DrawsFor(code: string): (draws: seq<Draw>)
    requires IsShortCode(code, |code|)
    ensures |draws| == |code|
  {
    seq(|code|, i requires 0 <= i < |code| => AlphabetIndex(code[i]))
  }

  /** Every code of letters and digits, of any length, can be generated. */
  lemma {:induction false} GenerateShortCodeOnto(code: string)
    requires IsShortCode(code, |code|)
    ensures GenerateShortCode(DrawsFor(code)) == code
  {
    var draws := DrawsFor(code);
    forall i | 0 <= i < |code|
      ensures GenerateShortCode(draws)[i] == code[i]
    {
      GenerateShortCodeAt(draws, i);
    }
  }

  /** Different draws give different codes: no two draw sequences collide. */
  lemma {:induction false} GenerateShortCodeInjective(d1: seq<Draw>, d2: seq<Draw>)
    requires GenerateShortCode(d1) == GenerateShortCode(d2)
    ensures d1 == d2
  {
    AlphabetIsAlphanumeric();
    forall i | 0 <= i < |d1|
      ensures d1[i] == d2[i]
    {
      GenerateShortCodeAt(d1, i);
      GenerateShortCodeAt(d2, i);
    }
  }
}
