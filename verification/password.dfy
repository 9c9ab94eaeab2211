/** The one-time password: `length` characters, each drawn by `random.choice`
    from Python's `ascii_letters + digits`. Each draw is a nondeterministic pick
    of an index (`random.choice(alphabet)` is
    `alphabet[randbelow(len(alphabet))]`), and the password is the string the
    drawn indices select. */
module Password {

  /** The password length setup asks for. */
  const PasswordLength := 16

  /** The `n` consecutive code points starting at `lo`. */
  function CharRange(lo: char, n: nat): (r: string)
    requires lo as int + n <= 128
    ensures |r| == n
    ensures forall i | 0 <= i < n :: r[i] as int == lo as int + i
    decreases n
  {
    if n == 0 then [] else CharRange(lo, n - 1) + [(lo as int + n - 1) as char]
  }

  /** `string.ascii_letters`: lower case first, then upper case. */
  const AsciiLetters := CharRange('a', 26) + CharRange('A', 26)

  /** `string.digits`. */
  const Digits := CharRange('0', 10)

  /** The 62 symbols a password character is drawn from. */
  const Alphabet := AsciiLetters + Digits

  lemma LowercaseSpelledOut()
    ensures CharRange('a', 26) == "abcdefghijklmnopqrstuvwxyz"
  {
    var r, lit := CharRange('a', 26), "abcdefghijklmnopqrstuvwxyz";
    forall i | 0 <= i < 26 ensures r[i] == lit[i] {
      assert r[i] as int == 'a' as int + i;
    }
  }

  lemma UppercaseSpelledOut()
    ensures CharRange('A', 26) == "ABCDEFGHIJKLMNOPQRSTUVWXYZ"
  {
    var r, lit := CharRange('A', 26), "ABCDEFGHIJKLMNOPQRSTUVWXYZ";
    forall i | 0 <= i < 26 ensures r[i] == lit[i] {
      assert r[i] as int == 'A' as int + i;
    }
  }

  lemma DigitsSpelledOut()
    ensures Digits == "0123456789"
  {
    var lit := "0123456789";
    forall i | 0 <= i < 10 ensures Digits[i] == lit[i] {
      assert Digits[i] as int == '0' as int + i;
    }
  }

  /** The alphabet, character by character, in the order draws index it. */
  lemma AlphabetSpelledOut()
    ensures Alphabet == "abcdefghijklmnopqrstuvwxyz" + "ABCDEFGHIJKLMNOPQRSTUVWXYZ" + "0123456789"
  {
    LowercaseSpelledOut();
    UppercaseSpelledOut();
    DigitsSpelledOut();
  }

  /** Case-sensitive ASCII letter or decimal digit. */
  predicate IsAlphanumeric(c: char) {
    ('A' <= c <= 'Z') || ('a' <= c <= 'z') || ('0' <= c <= '9')
  }

  predicate IsPassword(s: string) {
    |s| == PasswordLength && forall i | 0 <= i < |s| :: IsAlphanumeric(s[i])
  }

  /** The position of an alphanumeric character in the alphabet. */
  function IndexOf(c: char): (k: nat)
    requires IsAlphanumeric(c)
    ensures k < |Alphabet| && Alphabet[k] == c
  {
    if 'a' <= c <= 'z' then
      var k := c as int - 'a' as int;
      assert Alphabet[k] == CharRange('a', 26)[k];
      k
    else if 'A' <= c <= 'Z' then
      var k := c as int - 'A' as int;
      assert Alphabet[26 + k] == CharRange('A', 26)[k];
      26 + k
    else
      var k := c as int - '0' as int;
      assert Alphabet[52 + k] == CharRange('0', 10)[k];
      52 + k
  }

  /** The alphabet holds exactly the alphanumeric characters, each once. */
  lemma AlphabetIsAlphanumeric()
    ensures |Alphabet| == 62
    ensures forall i | 0 <= i < |Alphabet| :: IsAlphanumeric(Alphabet[i])
    ensures forall i, j | 0 <= i < j < |Alphabet| :: Alphabet[i] != Alphabet[j]
    ensures forall c: char | IsAlphanumeric(c) :: c in Alphabet
  {
    var lower, upper, digits := CharRange('a', 26), CharRange('A', 26), CharRange('0', 10);
    assert forall i | 0 <= i < 26 :: Alphabet[i] == lower[i];
    assert forall i | 26 <= i < 52 :: Alphabet[i] == upper[i - 26];
    assert forall i | 52 <= i < 62 :: Alphabet[i] == digits[i - 52];
    forall c: char | IsAlphanumeric(c) ensures c in Alphabet {
      var k := IndexOf(c);
    }
  }

  /** The password a sequence of draws produces: draw `d` picks `Alphabet[d]`. */
  function FromDraws(draws: seq<nat>): (s: string)
    requires forall i | 0 <= i < |draws| :: draws[i] < |Alphabet|
    ensures |s| == |draws|
    ensures forall i | 0 <= i < |s| :: IsAlphanumeric(s[i]) && IndexOf(s[i]) == draws[i]
  {
    AlphabetIsAlphanumeric();
    seq(|draws|, i requires 0 <= i < |draws| => Alphabet[draws[i]])
  }

  /** The draws that produce `s`. */
  function DrawsOf(s: string): (draws: seq<nat>)
    requires forall i | 0 <= i < |s| :: IsAlphanumeric(s[i])
    ensures |draws| == |s|
    ensures forall i | 0 <= i < |draws| :: draws[i] < |Alphabet|
  {
    seq(|s|, i requires 0 <= i < |s| => IndexOf(s[i]))
  }

  /** Every alphanumeric string of any length is some draw sequence's
      password: the generator can produce exactly the alphanumeric strings of
      the requested length. */
  lemma EveryAlphanumericStringIsReachable(s: string)
    requires forall i | 0 <= i < |s| :: IsAlphanumeric(s[i])
    ensures FromDraws(DrawsOf(s)) == s
  {
  }

  /** Draws the characters one at a time; `:|` stands for the index
      `random.choice` draws. The password is the one those draws produce, so
      every fact about `FromDraws` is a fact about the generator. */
  method RandomAlphanumeric(length: nat) returns (s: string, ghost draws: seq<nat>)
    ensures |s| == length
    ensures forall i | 0 <= i < |s| :: IsAlphanumeric(s[i])
    ensures forall i | 0 <= i < |draws| :: draws[i] < |Alphabet|
    ensures s == FromDraws(draws)
  {
    AlphabetIsAlphanumeric();
    s, draws := "", [];
    for n := 0 to length
      invariant |s| == |draws| == n
      invariant forall i | 0 <= i < |draws| :: draws[i] < |Alphabet|
      invariant s == FromDraws(draws)
    {
      var k :| 0 <= k < |Alphabet|;
      s, draws := s + [Alphabet[k]], draws + [k];
      assert forall i | 0 <= i < |s| :: s[i] == Alphabet[draws[i]];
    }
  }

  /** The password setup generates, with the draws that produced it. */
  method GeneratePassword() returns (password: string, ghost draws: seq<nat>)
    ensures IsPassword(password)
    ensures forall i | 0 <= i < |draws| :: draws[i] < |Alphabet|
    ensures password == FromDraws(draws)
  {
    password, draws := RandomAlphanumeric(PasswordLength);
  }
}
