/** The string functions of the program: splitting a header at blanks, and numbers as text. */
module Text {

  predicate IsBlank(c: char) {
    c == ' ' || c == '\t'
  }

  /** Split at every blank; adjacent blanks give empty words. */
  function Split(s: string): (words: seq<string>)
    ensures |words| >= 1
  {
    if s == "" then [""]
    else if IsBlank(s[0]) then [""] + Split(s[1..])
    else
      var rest := Split(s[1..]);
      [[s[0]] + rest[0]] + rest[1..]
  }

  /** A word of a header: no blanks and no line ends. */
  ghost predicate IsWord(s: string) {
    forall i :: 0 <= i < |s| ==> !IsBlank(s[i]) && s[i] != '\r' && s[i] != '\n'
  }

  ghost predicate NoBlanks(s: string) {
    forall i :: 0 <= i < |s| ==> !IsBlank(s[i])
  }

  lemma {:induction false} SplitLastWord(a: string)
    requires NoBlanks(a)
    ensures Split(a) == [a]
  {
    if a != "" {
      SplitLastWord(a[1..]);
      assert [a[0]] + a[1..] == a;
    }
  }

  lemma {:induction false} SplitWord(a: string, rest: string)
    requires NoBlanks(a)
    ensures Split(a + " " + rest) == [a] + Split(rest)
  {
    var s := a + " " + rest;
    if a == "" {
      assert s[1..] == rest;
    } else {
      assert s[1..] == a[1..] + " " + rest;
      SplitWord(a[1..], rest);
      assert Split(s[1..]) == [a[1..]] + Split(rest);
      assert [a[0]] + a[1..] == a;
    }
  }

  lemma SplitFour(a: string, b: string, c: string, d: string)
    requires NoBlanks(a) && NoBlanks(b) && NoBlanks(c) && NoBlanks(d)
    ensures Split(a + " " + (b + " " + (c + " " + d))) == [a] + ([b] + ([c] + [d]))
  {
    SplitLastWord(d);
    SplitWord(c, d);
    SplitWord(b, c + " " + d);
    SplitWord(a, b + " " + (c + " " + d));
  }

  // ----- numbers -----------------------------------------------------------------

  predicate IsDigit(c: char) {
    '0' <= c <= '9'
  }

  function DigitOf(k: nat): (c: char)
    requires k < 10
    ensures IsDigit(c)
  {
    '0' + k as char
  }

  function ValueOf(c: char): (k: nat)
    requires IsDigit(c)
    ensures k < 10
  {
    c as int - '0' as int
  }

  function Digits(n: nat): (s: string)
    ensures s != "" && forall i :: 0 <= i < |s| ==> IsDigit(s[i])
  {
    if n < 10 then [DigitOf(n)] else Digits(n / 10) + [DigitOf(n % 10)]
  }

  function IntToString(n: int): (s: string)
    ensures s != "" && IsWord(s)
  {
    if n < 0 then "-" + Digits(-n) else Digits(n)
  }

  /** The value of the leading digits, continuing from `acc`: the loop of atoi. */
  function LeadingDigits(s: string, acc: nat): nat {
    if s == "" || !IsDigit(s[0]) then acc else LeadingDigits(s[1..], 10 * acc + ValueOf(s[0]))
  }

  predicate IsSpace(c: char) {
    c in {' ', '\t', '\n', '\r', '\U{0B}', '\U{0C}'}
  }

  function Atoi(s: string): int {
    if s == "" then 0
    else if IsSpace(s[0]) then Atoi(s[1..])
    else if s[0] == '-' then 0 - LeadingDigits(s[1..], 0)
    else if s[0] == '+' then LeadingDigits(s[1..], 0)
    else LeadingDigits(s, 0)
  }

  predicate AllDigits(s: string) {
    s != "" && forall i :: 0 <= i < |s| ==> IsDigit(s[i])
  }

  /** `lexical_cast<int>` with the program's answer for anything that is no number. */
  function ToInt(s: string): int {
    if AllDigits(s) then LeadingDigits(s, 0)
    else if s != "" && s[0] == '-' && AllDigits(s[1..]) then 0 - LeadingDigits(s[1..], 0)
    else if s != "" && s[0] == '+' && AllDigits(s[1..]) then LeadingDigits(s[1..], 0)
    else -100
  }

  lemma {:induction false} LeadingDigitsSnoc(s: string, c: char, acc: nat)
    requires (forall i :: 0 <= i < |s| ==> IsDigit(s[i])) && IsDigit(c)
    ensures LeadingDigits(s + [c], acc) == 10 * LeadingDigits(s, acc) + ValueOf(c)
    decreases |s|
  {
    if s == "" {
      assert (s + [c])[1..] == "";
    } else {
      assert (s + [c])[1..] == s[1..] + [c];
      LeadingDigitsSnoc(s[1..], c, 10 * acc + ValueOf(s[0]));
    }
  }

  lemma {:induction false} DigitsReadBack(n: nat)
    ensures LeadingDigits(Digits(n), 0) == n
  {
    if n >= 10 {
      DigitsReadBack(n / 10);
      LeadingDigitsSnoc(Digits(n / 10), DigitOf(n % 10), 0);
    } else {
      assert Digits(n)[1..] == "";
    }
  }

  /** Numbers written into headers and log entries are read back unchanged, by both readers. */
  lemma NumbersReadBack(n: int)
    ensures Atoi(IntToString(n)) == n
    ensures ToInt(IntToString(n)) == n
  {
    var s := IntToString(n);
    if n < 0 {
      DigitsReadBack(-n);
      assert s[1..] == Digits(-n) && s[0] == '-';
    } else {
      DigitsReadBack(n);
      assert IsDigit(s[0]);
    }
  }

  // ----- what else the readers take ------------------------------------------------------

  lemma {:induction false} SplitTab(a: string, rest: string)
    requires NoBlanks(a)
    ensures Split(a + "\t" + rest) == [a] + Split(rest)
  {
    var s := a + "\t" + rest;
    if a == "" {
      assert s[1..] == rest;
    } else {
      assert s[1..] == a[1..] + "\t" + rest;
      SplitTab(a[1..], rest);
      assert Split(s[1..]) == [a[1..]] + Split(rest);
      assert [a[0]] + a[1..] == a;
    }
  }

  lemma {:induction false} LeadingDigitsStop(s: string, rest: string, acc: nat)
    requires (forall i :: 0 <= i < |s| ==> IsDigit(s[i])) && (rest != "" ==> !IsDigit(rest[0]))
    ensures LeadingDigits(s + rest, acc) == LeadingDigits(s, acc)
    decreases |s|
  {
    if s == "" {
      assert s + rest == rest;
    } else {
      assert (s + rest)[1..] == s[1..] + rest;
      LeadingDigitsStop(s[1..], rest, 10 * acc + ValueOf(s[0]));
    }
  }

  lemma {:induction false} AtoiSkips(blanks: string, s: string)
    requires forall i :: 0 <= i < |blanks| ==> blanks[i] in {' ', '\t', '\n', '\r', '\U{0B}', '\U{0C}'}
    ensures Atoi(blanks + s) == Atoi(s)
    decreases |blanks|
  {
    if blanks == "" {
      assert blanks + s == s;
    } else {
      assert (blanks + s)[1..] == blanks[1..] + s;
      AtoiSkips(blanks[1..], s);
    }
  }

  lemma AtoiOfDigits(n: nat, rest: string)
    requires rest != "" ==> !IsDigit(rest[0])
    ensures var s := Digits(n) + rest;
      LeadingDigits(s, 0) == n && s != "" && IsDigit(s[0])
  {
    DigitsReadBack(n);
    LeadingDigitsStop(Digits(n), rest, 0);
    assert (Digits(n) + rest)[0] == Digits(n)[0];
  }

  lemma AtoiOfSigned(s: string)
    requires s != "" && IsDigit(s[0])
    ensures Atoi(s) == LeadingDigits(s, 0) && Atoi("+" + s) == LeadingDigits(s, 0)
    ensures Atoi("-" + s) == 0 - LeadingDigits(s, 0)
  {
    assert ("+" + s)[1..] == s && ("-" + s)[1..] == s;
  }

  /** `atoi` skips white space, takes a sign and stops at the first character that is no digit. */
  lemma AtoiReads(blanks: string, n: nat, rest: string)
    requires forall i :: 0 <= i < |blanks| ==> blanks[i] in {' ', '\t', '\n', '\r', '\U{0B}', '\U{0C}'}
    requires rest != "" ==> !IsDigit(rest[0])
    ensures var s := Digits(n) + rest;
      Atoi(blanks + s) == n && Atoi(blanks + ("+" + s)) == n && Atoi(blanks + ("-" + s)) == 0 - n
  {
    var s := Digits(n) + rest;
    AtoiOfDigits(n, rest);
    AtoiOfSigned(s);
    AtoiSkips(blanks, s);
    AtoiSkips(blanks, "+" + s);
    AtoiSkips(blanks, "-" + s);
  }

  lemma NoNumber(s: string, k: nat)
    requires k < |s| && !IsDigit(s[k]) && (k > 0 ==> IsDigit(s[0]))
    requires k == 0 ==> s[0] != '-' && s[0] != '+'
    ensures ToInt(s) == -100
  {
  }

  /** The cast takes a sign, but nothing behind the digits: it gives -100 for what is no number. */
  lemma CastReads(n: nat, c: char, rest: string)
    ensures ToInt("+" + Digits(n)) == n && ToInt("") == -100
    ensures !IsDigit(c) ==> ToInt(Digits(n) + ([c] + rest)) == -100
  {
    DigitsReadBack(n);
    assert ("+" + Digits(n))[1..] == Digits(n);
    if !IsDigit(c) {
      var s := Digits(n) + ([c] + rest);
      assert s[0] == Digits(n)[0];
      NoNumber(s, |Digits(n)|);
    }
  }
}
