/** The names the generator makes up: arbitrary words followed by a number, which alone keeps them apart. */
module Names {
  import opened Collections

  /** strconv.Itoa of a number that is not negative. */
  function Itoa(n: nat): (s: string)
    ensures s != [] && forall c :: c in s ==> IsDigit(c)
    ensures |s| == 1 <==> n < 10
  {
    var digit := ['0' + (n % 10) as char];
    if n < 10 then digit else Itoa(n / 10) + digit
  }

  predicate IsDigit(c: char) { '0' <= c <= '9' }

  lemma {:induction false} ItoaInjective(m: nat, n: nat)
    requires Itoa(m) == Itoa(n)
    ensures m == n
    decreases m
  {
    var s := Itoa(m);
    assert s[|s| - 1] == '0' + (m % 10) as char == '0' + (n % 10) as char;
    assert m % 10 == n % 10;
    if m >= 10 {
      assert Itoa(m / 10) == s[..|s| - 1] == Itoa(n / 10);
      ItoaInjective(m / 10, n / 10);
    }
  }

  /** The number that digits stand for in base ten. */
  function Decimal(digits: string): int {
    if |digits| == 0 then 0
    else Decimal(digits[..|digits| - 1]) * 10 + (digits[|digits| - 1] as int - '0' as int)
  }

  /** Itoa writes a number in base ten, without leading zeros. */
  lemma {:induction false} ItoaReadBack(n: nat)
    ensures Decimal(Itoa(n)) == n
    ensures Itoa(n)[0] == '0' <==> n == 0
  {
    var s := Itoa(n);
    assert s[|s| - 1] as int - '0' as int == n % 10;
    if n >= 10 {
      ItoaReadBack(n / 10);
      assert s[..|s| - 1] == Itoa(n / 10);
    }
  }

  predicate EndsOutsideNumber(front: string) {
    front != [] && !IsDigit(front[|front| - 1])
  }

  /** Where the number begins: nothing after the front's last character is anything but a digit. */
  lemma LastNonDigit(s: string, front: string, digits: string)
    requires s == front + digits && EndsOutsideNumber(front) && forall c :: c in digits ==> IsDigit(c)
    ensures !IsDigit(s[|front| - 1]) && forall k :: |front| <= k < |s| ==> IsDigit(s[k])
  {
    forall k | |front| <= k < |s| ensures IsDigit(s[k]) {
      assert s[k] == digits[k - |front|] && s[k] in digits;
    }
  }

  /** Names that end in different numbers are different, whatever stands before the number. */
  lemma NumberedNamesDistinct(front1: string, m: nat, front2: string, n: nat)
    requires EndsOutsideNumber(front1) && EndsOutsideNumber(front2)
    requires front1 + Itoa(m) == front2 + Itoa(n)
    ensures m == n && front1 == front2
  {
    var s := front1 + Itoa(m);
    LastNonDigit(s, front1, Itoa(m));
    LastNonDigit(s, front2, Itoa(n));
    assert |front1| == |front2|;
    assert s[..|front1|] == front1 && s[..|front2|] == front2;
    assert s[|front1|..] == Itoa(m) && s[|front2|..] == Itoa(n);
    ItoaInjective(m, n);
  }

  /** makeUserName, whatever name was made up. */
  function UserName(fake: string, number: nat): string { fake + "-" + Itoa(number) }

  /** makeChannelName, whatever words were made up. */
  function ChannelName(words: string, number: nat): string { words + "-loadtestchannel" + Itoa(number) }

  function TeamName(number: nat): string { "loadtestteam" + Itoa(number) }

  /** User n gets a name that no other user can get. */
  lemma UserNamesDistinct(fakes: seq<string>)
    ensures Distinct(seq(|fakes|, n requires 0 <= n < |fakes| => UserName(fakes[n], n)))
    ensures forall n :: 0 <= n < |fakes| ==> UserName(fakes[n], n) == fakes[n] + "-" + Itoa(n)
  {
    forall m, n | 0 <= m < n < |fakes| ensures UserName(fakes[m], m) != UserName(fakes[n], n) {
      if UserName(fakes[m], m) == UserName(fakes[n], n) {
        NumberedNamesDistinct(fakes[m] + "-", m, fakes[n] + "-", n);
      }
    }
  }

  lemma ChannelNamesDistinct(words1: string, m: nat, words2: string, n: nat)
    requires ChannelName(words1, m) == ChannelName(words2, n)
    ensures m == n
  {
    var front1, front2 := words1 + "-loadtestchannel", words2 + "-loadtestchannel";
    assert front1[|front1| - 1] == 'l' && front2[|front2| - 1] == 'l';
    NumberedNamesDistinct(front1, m, front2, n);
  }

  lemma TeamNamesDistinct(m: nat, n: nat)
    requires TeamName(m) == TeamName(n)
    ensures m == n
  {
    NumberedNamesDistinct("loadtestteam", m, "loadtestteam", n);
  }
}
