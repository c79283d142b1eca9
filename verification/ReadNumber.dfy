/** The integer reader behind the ReadNum system call (userprog/ksyscall.h). */
module NumberReaders {
  import opened Bytes

  const MAX_NUM_LENGTH := 11
  const LEAST := -0x8000_0000

  // ----- decimal numerals -----

  function DigitChar(d: nat): (c: char)
    requires d < 10
  {
    (48 + d) as char
  }

  function DigitValue(c: char): int { c as int - 48 }

  predicate IsDigit(c: char) { '0' <= c <= '9' }

  ghost predicate AllDigits(s: seq<char>) {
    forall i :: 0 <= i < |s| ==> IsDigit(s[i])
  }

  // The digits of a positive number.
  function Digits(n: nat): (s: seq<char>)
    requires n > 0
    ensures s != []
  {
    (if n < 10 then [] else Digits(n / 10)) + [DigitChar(n % 10)]
  }

  // The canonical decimal form of an integer.
  function Numeral(n: int): (s: seq<char>)
    ensures s != []
  {
    if n == 0 then "0" else if n < 0 then "-" + Digits(-n) else Digits(n)
  }

  // What a string of digits is worth.
  function ValueOf(s: seq<char>): int {
    if s == [] then 0 else ValueOf(s[..|s| - 1]) * 10 + DigitValue(s[|s| - 1])
  }

  function Pow10(k: nat): (p: nat)
    ensures p >= 1
  {
    if k == 0 then 1 else 10 * Pow10(k - 1)
  }

  lemma {:induction false} DigitsOk(n: nat)
    requires n > 0
    ensures AllDigits(Digits(n)) && Digits(n)[0] != '0' && ValueOf(Digits(n)) == n
  {
    var s := Digits(n);
    if n >= 10 {
      DigitsOk(n / 10);
      assert s[..|s| - 1] == Digits(n / 10);
    } else {
      assert s[..0] == [];
    }
  }

  lemma {:induction false} DigitsLength(n: nat, k: nat)
    requires 0 < n < Pow10(k)
    ensures |Digits(n)| <= k
  {
    if n >= 10 {
      DigitsLength(n / 10, k - 1);
    }
  }

  lemma {:induction false} ValueBound(s: seq<char>)
    requires AllDigits(s)
    ensures 0 <= ValueOf(s) < Pow10(|s|)
    ensures s != [] && s[0] != '0' ==> ValueOf(s) > 0
  {
    if s != [] {
      ValueBound(s[..|s| - 1]);
    }
  }

  // A string of digits that does not start with 0 is the numeral of its value.
  lemma {:induction false} DigitsOfValue(s: seq<char>)
    requires AllDigits(s) && s != [] && s[0] != '0'
    ensures ValueOf(s) > 0 && Digits(ValueOf(s)) == s
  {
    var m := |s| - 1;
    ValueBound(s);
    var d, v := DigitValue(s[m]), ValueOf(s[..m]);
    assert s == s[..m] + [s[m]] && DigitChar(d) == s[m];
    if m > 0 {
      DigitsOfValue(s[..m]);
      assert (v * 10 + d) / 10 == v && (v * 10 + d) % 10 == d;
    } else {
      assert v == 0;
    }
  }

  // A zero followed by more digits, or by a sign, is no numeral.
  lemma NumeralShape(t: seq<char>, n: int)
    requires t == Numeral(n)
    ensures n < 0 <==> t[0] == '-'
    ensures var d := if n < 0 then t[1..] else t;
      && AllDigits(d) && d != [] && (d[0] == '0' ==> t == "0" && n == 0)
      && ValueOf(d) == if n < 0 then -n else n
  {
    if n == 0 {
      assert ValueOf("0") == ValueOf("0"[..0]) * 10;
    } else if n < 0 {
      DigitsOk(-n);
      assert t[1..] == Digits(-n);
    } else {
      DigitsOk(n);
    }
  }

  // ----- compareNumAndString -----

  // Where a comparison stands: `rest` is what is left of the number n, and the
  // characters of s from len on have matched.
  ghost predicate Matched(s: seq<char>, n: nat, rest: nat, len: nat) {
    && n > 0 && len <= |s|
    && Digits(n) == (if rest > 0 then Digits(rest) else []) + s[len..]
  }

  lemma MatchStep(s: seq<char>, n: nat, rest: nat, len: nat)
    requires Matched(s, n, rest, len) && rest > 0 && len > 0
    ensures DigitValue(s[len - 1]) == rest % 10 ==> Matched(s, n, rest / 10, len - 1)
    ensures DigitValue(s[len - 1]) != rest % 10 ==> s != Digits(n)
  {
    var c := DigitChar(rest % 10);
    var front := if rest < 10 then [] else Digits(rest / 10);
    assert Digits(rest) == front + [c];
    hide Digits;
    MatchChar(s, Digits(n), front, c, len);
    assert DigitValue(s[len - 1]) == rest % 10 <==> s[len - 1] == c;
  }

  lemma MatchChar(s: seq<char>, all: seq<char>, front: seq<char>, c: char, len: nat)
    requires 0 < len <= |s| && all == front + [c] + s[len..]
    ensures s[len - 1] == c ==> all == front + s[len - 1..]
    ensures s[len - 1] != c ==> s != all
  {
    if s[len - 1] == c {
      assert s[len - 1..] == [c] + s[len..];
    } else if |s| == |all| {
      assert |front| == len - 1 && all[len - 1] == c;
    }
  }

  // The number is used up: s is its numeral exactly when s is too.
  lemma MatchEnd(s: seq<char>, n: nat, len: nat)
    requires Matched(s, n, 0, len)
    ensures len == 0 <==> s == Digits(n)
  {
    assert |Digits(n)| == |s| - len;
    assert s[0..] == s;
  }

  ghost predicate ProperSuffix(s: seq<char>, all: seq<char>) {
    |s| < |all| && s == all[|all| - |s|..]
  }

  // The characters are used up before the number.
  lemma RanOut(s: seq<char>, n: nat, rest: nat)
    requires Matched(s, n, rest, 0) && rest > 0
    ensures ProperSuffix(s, Digits(n)) && s != Digits(n)
  {
    var all, front := Digits(n), Digits(rest);
    hide Digits;
    assert s[0..] == s;
    assert all[|front|..] == s;
  }

  // The digit-stripping loop.  Behind a sign, the character in front of the digits is
  // that sign.
  method CompareDigits(number: nat, s: seq<char>, start: nat) returns (same: bool)
    requires number > 0 && start <= |s|
    requires if start == 0 then !ProperSuffix(s, Digits(number)) else s[start - 1] == '-'
    ensures same <==> s[start..] == Digits(number)
  {
    hide Digits;
    ghost var t := s[start..];
    var n, len := number, |s| - start;
    assert s[0..] == s && t[len..] == [];
    while n > 0
      invariant 0 <= len <= |t| && Matched(t, number, n, len)
    {
      if len == 0 {
        RanOut(t, number, n);
      } else {
        MatchStep(t, number, n, len);
        assert t[len - 1] == s[start + len - 1];
      }
      hide Matched;
      var digit := n % 10;
      if DigitValue(s[start + len - 1]) != digit {
        return false;
      }
      len := len - 1;
      n := n / 10;
    }
    MatchEnd(t, number, len);
    return len == 0;
  }

  /** Whether s is the numeral of an integer; for the least integer, whose negation
      wraps to itself, the answer is whether s is "-".  Only a positive integer whose
      numeral goes on in front of the whole of s makes the loop look in front of s. */
  method CompareNumAndString(integer: Int32, s: seq<char>) returns (same: bool)
    requires !(integer > 0 && ProperSuffix(s, Digits(integer)))
    ensures same <==> if integer == LEAST then s == "-" else s == Numeral(integer)
  {
    hide Digits;
    if integer == 0 {
      return s == "0";
    }
    if integer < 0 && (s == [] || s[0] != '-') {
      return false;
    }
    var n: int, start := integer, 0;
    if integer < 0 {
      start := 1;
      n := Negated(integer);
      assert s == ['-'] + s[1..];
    }
    assert s[0..] == s;
    if n < 0 {
      return |s| == 1;  // the loop is not entered
    }
    same := CompareDigits(n, s, start);
  }

  // The loop on n uses up the characters of s before the number.
  predicate RunsOut(n: nat, s: seq<char>) {
    n > 0 && (s == [] || (DigitValue(s[|s| - 1]) == n % 10 && RunsOut(n / 10, s[..|s| - 1])))
  }

  /** The condition above is exact: those are the cases in which the loop gets in front
      of the string with some of the number left. */
  lemma {:induction false} RunsOutIff(n: nat, s: seq<char>)
    requires n > 0
    ensures RunsOut(n, s) <==> ProperSuffix(s, Digits(n))
  {
    if s != [] && n >= 10 {
      RunsOutIff(n / 10, s[..|s| - 1]);
      var front, c := Digits(n / 10), DigitChar(n % 10);
      assert Digits(n) == front + [c];
      assert s[|s| - 1] == c <==> DigitValue(s[|s| - 1]) == n % 10;
      hide Digits, RunsOut;
      SuffixSnoc(s, front, c);
    }
  }

  lemma SuffixSnoc(s: seq<char>, front: seq<char>, c: char)
    requires s != []
    ensures ProperSuffix(s, front + [c]) <==> s[|s| - 1] == c && ProperSuffix(s[..|s| - 1], front)
  {
    var m, all := |s| - 1, front + [c];
    assert s == s[..m] + [s[m]];
    if m < |front| {
      assert all[|all| - |s|..] == front[|front| - m..] + [c];
      assert all[|all| - |s|..][m] == c;
    }
  }

  // ----- SysReadNum -----

  // The int a string of characters stands for: n for the numeral of an int n, else 0.
  ghost predicate Means(t: seq<char>, r: Int32) {
    && (forall n: Int32 :: t == Numeral(n) ==> r == n)
    && ((forall n: Int32 :: t != Numeral(n)) ==> r == 0)
  }

  lemma SameResidue(y: int, q: int)
    ensures (y + q * WORD_LIMIT) % WORD_LIMIT == y % WORD_LIMIT
  {
    var a, b := (y + q * WORD_LIMIT) / WORD_LIMIT, y / WORD_LIMIT;
    assert (a - b - q) * WORD_LIMIT == y % WORD_LIMIT - (y + q * WORD_LIMIT) % WORD_LIMIT;
  }

  // `num = num * 10 + d` in a register.
  lemma WrapStep(num: Int32, v: int, d: int)
    requires num == Wrap(v)
    ensures Wrap(num * 10 + d) == Wrap(v * 10 + d)
  {
    var q := (num - v) / WORD_LIMIT;
    assert num == v + q * WORD_LIMIT;
    assert num * 10 + d == v * 10 + d + (10 * q) * WORD_LIMIT;
    SameResidue(v * 10 + d, 10 * q);
  }

  lemma WrapNegate(num: Int32, v: int)
    requires num == Wrap(v)
    ensures Negated(num) == Wrap(-v)
  {
    var q := (num - v) / WORD_LIMIT;
    var n: int := num;
    assert -n == -v + (-q) * WORD_LIMIT;
    SameResidue(-v, -q);
  }

  lemma WrapSmall(v: int)
    requires LEAST <= v < 0x8000_0000
    ensures Wrap(v) == v
  {
  }

  const LEAST_NUMERAL := "-2147483648"

  lemma LeastNumeral()
    ensures Numeral(LEAST) == LEAST_NUMERAL
  {
    hide Digits;
    TwentyOne();
    DigitsSnoc(21, 4, "21", "214");
    DigitsSnoc(214, 7, "214", "2147");
    DigitsSnoc(2147, 4, "2147", "21474");
    DigitsSnoc(21474, 8, "21474", "214748");
    DigitsSnoc(214748, 3, "214748", "2147483");
    DigitsSnoc(2147483, 6, "2147483", "21474836");
    DigitsSnoc(21474836, 4, "21474836", "214748364");
    DigitsSnoc(214748364, 8, "214748364", "2147483648");
  }

  lemma TwentyOne()
    ensures Digits(21) == "21"
  {
    assert Digits(2) == "2";
  }

  lemma DigitsSnoc(n: nat, d: nat, s: seq<char>, t: seq<char>)
    requires n > 0 && d < 10 && Digits(n) == s && t == s + [DigitChar(d)]
    ensures Digits(10 * n + d) == t
  {
    assert (10 * n + d) / 10 == n && (10 * n + d) % 10 == d;
  }

  // Where the digits start.
  function Start(t: seq<char>): (i: nat)
    ensures i <= |t|
  {
    if t != [] && t[0] == '-' then 1 else 0
  }

  // The leading zeros of the digits read so far.
  ghost predicate ZerosCounted(d: seq<char>, zeros: nat, leading: bool) {
    && zeros <= |d| && (forall j :: 0 <= j < zeros ==> d[j] == '0')
    && (leading <==> zeros == |d|) && (!leading ==> d[zeros] != '0')
  }

  lemma SuffixDigit(t: seq<char>, i: nat)
    requires Start(t) <= i < |t| && !IsDigit(t[i])
    ensures !AllDigits(t[Start(t)..])
  {
    assert t[Start(t)..][i - Start(t)] == t[i];
  }

  lemma RejectDigit(t: seq<char>, i: nat)
    requires Start(t) <= i < |t| && !IsDigit(t[i])
    ensures Means(t, 0)
  {
    hide Numeral;
    SuffixDigit(t, i);
    forall n: Int32 | t == Numeral(n)
      ensures false
    {
      NumeralShape(t, n);
    }
  }

  // What the loop leaves behind when every character was a digit.
  ghost predicate Scanned(t: seq<char>, zeros: nat, num: Int32) {
    var d := t[Start(t)..];
    && t != [] && AllDigits(d) && num == Wrap(ValueOf(d))
    && zeros <= |d| && (zeros > 0 ==> d[0] == '0') && (zeros == 0 && d != [] ==> d[0] != '0')
    && (|d| > 0 && zeros == 1 && |d| > 1 ==> d[1] != '0')
  }

  lemma ScannedAll(t: seq<char>, zeros: nat, leading: bool, num: Int32)
    requires t != [] && AllDigits(t[Start(t)..]) && num == Wrap(ValueOf(t[Start(t)..]))
    requires ZerosCounted(t[Start(t)..], zeros, leading)
    ensures Scanned(t, zeros, num)
  {
    hide ValueOf, AllDigits, Wrap;
  }

  lemma RejectZeros(t: seq<char>, zeros: nat, num: Int32)
    requires Scanned(t, zeros, num) && (zeros > 1 || (zeros > 0 && (num != 0 || t[0] == '-')))
    ensures Means(t, 0)
  {
    hide Numeral;
    forall n: Int32 | t == Numeral(n)
      ensures false
    {
      NumeralShape(t, n);
    }
  }

  // The signed result of the accumulation.
  function Signed(t: seq<char>, num: Int32): Int32 {
    if t != [] && t[0] == '-' then Negated(num) else num
  }

  // Overflow aside, a numeral is read as its number.
  lemma NumeralRead(t: seq<char>, zeros: nat, num: Int32, n: Int32)
    requires Scanned(t, zeros, num) && t == Numeral(n) && n != LEAST
    ensures Signed(t, num) == n
  {
    hide Numeral;
    NumeralShape(t, n);
    var v: int := n;
    WrapNegate(num, ValueOf(t[Start(t)..]));
    assert t[Start(t)..] == if n < 0 then t[1..] else t;
    WrapSmall(v);
    WrapSmall(-v);
    hide Wrap, Negated;
    assert - -v == v;
  }

  // With no leading zero and no overflow, the characters are the numeral of the result.
  lemma ExactRead(t: seq<char>, num: Int32)
    requires Scanned(t, 0, num) && t[Start(t)..] != [] && ValueOf(t[Start(t)..]) < 0x8000_0000
    ensures t == Numeral(Signed(t, num))
  {
    hide Digits, ValueOf, AllDigits, Wrap;
    var d := t[Start(t)..];
    DigitsOfValue(d);
    WrapSmall(ValueOf(d));
    WrapSmall(-ValueOf(d));
    if t[0] == '-' {
      assert t == "-" + d;
      assert Signed(t, num) == -ValueOf(d);
    } else {
      assert t == d;
    }
  }

  // Nine characters cannot overflow.
  lemma ShortRead(t: seq<char>, zeros: nat, num: Int32)
    requires Scanned(t, zeros, num) && !(zeros > 1 || (zeros > 0 && (num != 0 || t[0] == '-')))
    requires |t| <= MAX_NUM_LENGTH - 2 && t != LEAST_NUMERAL
    ensures Means(t, Signed(t, num))
  {
    LeastNumeral();
    hide Numeral, Wrap, Negated, AllDigits;
    var d := t[Start(t)..];
    ValueBelow(d, 9);
    forall n: Int32 | t == Numeral(n)
      ensures Signed(t, num) == n
    {
      NumeralRead(t, zeros, num, n);
    }
    if d == [] {
      NoDigits(t, num);
    } else if zeros == 0 {
      ExactRead(t, num);
    }
  }

  lemma NoDigits(t: seq<char>, num: Int32)
    requires t[Start(t)..] == [] && num == Wrap(ValueOf([]))
    ensures Signed(t, num) == 0
  {
  }

  lemma ValueBelow(d: seq<char>, k: nat)
    requires AllDigits(d) && |d| <= k && 9 <= k <= 10
    ensures 0 <= ValueOf(d) < 10_000_000_000
    ensures k == 9 ==> ValueOf(d) < 1_000_000_000
  {
    ValueBound(d);
    PowMonotone(|d|, k);
    Pow9();
    assert Pow10(10) == 10 * Pow10(9);
  }

  lemma {:induction false} PowMonotone(a: nat, b: nat)
    requires a <= b
    ensures Pow10(a) <= Pow10(b)
  {
    if a < b {
      PowMonotone(a, b - 1);
    }
  }

  lemma Pow9()
    ensures Pow10(9) == 1_000_000_000
  {
    assert Pow10(3) == 1000;
    assert Pow10(6) == 1_000_000;
  }

  // Longer texts are compared with the result; the comparison stays inside them.
  lemma LongRoom(t: seq<char>, r: Int32)
    requires |t| > MAX_NUM_LENGTH - 2
    ensures !(r > 0 && ProperSuffix(t, Digits(r)))
  {
    Pow9();
    assert Pow10(10) == 10 * Pow10(9);
    hide Digits;
    if r > 0 {
      DigitsLength(r, 10);
    }
  }

  lemma LongRead(t: seq<char>, zeros: nat, num: Int32, same: bool)
    requires Scanned(t, zeros, num) && |t| > MAX_NUM_LENGTH - 2 && t != LEAST_NUMERAL
    requires var r := Signed(t, num); same <==> if r == LEAST then t == "-" else t == Numeral(r)
    ensures Means(t, if same then Signed(t, num) else 0)
  {
    LeastNumeral();
    hide Numeral, Wrap, Negated, AllDigits, ValueOf, Scanned, Signed;
    var r := Signed(t, num);
    forall n: Int32 | t == Numeral(n)
      ensures n == r
    {
      NumeralRead(t, zeros, num, n);
    }
  }

  // The tests after the loop, all of them on a character string without its NUL.
  method Interpret(t: seq<char>) returns (r: Int32)
    ensures Means(t, r)
  {
    hide Numeral, Wrap, Negated, AllDigits, ValueOf, ZerosCounted, Scanned, Means;
    if |t| == 0 {
      NothingRead();
      return 0;
    }
    if t == LEAST_NUMERAL {
      LeastRead();
      return LEAST;
    }
    var nega := t[0] == '-';
    var zeros, isLeading, num: Int32 := 0, true, 0;
    var i := if nega then 1 else 0;
    ScanStart(t);
    while i < |t|
      invariant Start(t) <= i <= |t|
      invariant AllDigits(t[Start(t)..i]) && num == Wrap(ValueOf(t[Start(t)..i]))
      invariant zeros >= 0 && ZerosCounted(t[Start(t)..i], zeros, isLeading)
    {
      var c := t[i];
      ghost var d, zeros', leading' := t[Start(t)..i], zeros, isLeading;
      if c == '0' && isLeading {
        zeros := zeros + 1;
      } else {
        isLeading := false;
      }
      if c < '0' || c > '9' {
        RejectDigit(t, i);
        return 0;
      }
      ScanStep(d, c, zeros', leading', num);
      assert t[Start(t)..i + 1] == d + [c];
      num := Wrap(num * 10 + DigitValue(c));
      i := i + 1;
    }
    assert t[Start(t)..i] == t[Start(t)..];
    ScannedAll(t, zeros, isLeading, num);
    if zeros > 1 || (zeros > 0 && (num != 0 || nega)) {
      RejectZeros(t, zeros, num);
      return 0;
    }
    ghost var magnitude := num;
    if nega {
      num := Negated(num);
    }
    if |t| <= MAX_NUM_LENGTH - 2 {
      ShortRead(t, zeros, magnitude);
      return num;
    }
    LongRoom(t, num);
    var same := CompareNumAndString(num, t);
    LongRead(t, zeros, magnitude, same);
    return if same then num else 0;
  }

  lemma NothingRead()
    ensures Means([], 0)
  {
  }

  lemma LeastRead()
    ensures Means(LEAST_NUMERAL, LEAST)
  {
    LeastNumeral();
    hide Numeral;
    forall n: Int32 | LEAST_NUMERAL == Numeral(n)
      ensures n == LEAST
    {
      NumeralShape(LEAST_NUMERAL, n);
      NumeralShape(LEAST_NUMERAL, LEAST);
    }
  }

  lemma ScanStart(t: seq<char>)
    ensures var d := t[Start(t)..Start(t)];
      AllDigits(d) && 0 == Wrap(ValueOf(d)) && ZerosCounted(d, 0, true)
  {
  }

  lemma ScanStep(d: seq<char>, c: char, zeros: nat, leading: bool, num: Int32)
    requires AllDigits(d) && IsDigit(c) && num == Wrap(ValueOf(d)) && ZerosCounted(d, zeros, leading)
    ensures AllDigits(d + [c]) && Wrap(num * 10 + DigitValue(c)) == Wrap(ValueOf(d + [c]))
    ensures ZerosCounted(d + [c], if c == '0' && leading then zeros + 1 else zeros, c == '0' && leading)
  {
    assert (d + [c])[..|d|] == d;
    WrapStep(num, ValueOf(d), DigitValue(c));
    hide Wrap;
  }

  // ----- the console and the buffer -----

  const EOF := 255 as char  // (char) -1

  predicate IsBlank(c: char) { c == '\n' || c == '\r' || c == '\t' || c == ' ' }

  predicate Stops(c: char) { IsBlank(c) || c == EOF }

  // The characters stored from an input, n being there already.
  function Token(input: seq<char>, n: nat): (t: seq<char>)
    ensures n <= MAX_NUM_LENGTH + 1 ==> n + |t| <= MAX_NUM_LENGTH + 1
  {
    if n > MAX_NUM_LENGTH || input == [] || Stops(input[0]) then [] else [input[0]] + Token(input[1..], n + 1)
  }

  // The input that is left.
  function Left(input: seq<char>, n: nat): seq<char> {
    if n > MAX_NUM_LENGTH || input == [] then input
    else if Stops(input[0]) then input[1..]
    else Left(input[1..], n + 1)
  }

  // The characters at which a word ends, and the end of the input.
  ghost predicate EndsWord(c: char) { c as int in {9, 10, 13, 32, 255} }

  /** The word is the longest run of characters at the head of the input, twelve at most,
      with no line feed, carriage return, tab, space or EOF among them; what is left
      begins behind it, or behind the character that ended it. */
  lemma {:induction false} TokenIsWord(input: seq<char>, n: nat)
    requires n <= 12
    ensures var t := Token(input, n);
      && t <= input && n + |t| <= 12 && (forall i :: 0 <= i < |t| ==> !EndsWord(t[i]))
      && (n + |t| == 12 || |t| == |input| || EndsWord(input[|t|]))
      && Left(input, n) == if n + |t| < 12 && |t| < |input| then input[|t| + 1..] else input[|t|..]
  {
    if n < 12 && input != [] && !Stops(input[0]) {
      TokenIsWord(input[1..], n + 1);
    }
  }

  // One character at a time.
  lemma TokenStep(input: seq<char>, n: nat)
    ensures if n > MAX_NUM_LENGTH || input == [] then Token(input, n) == [] && Left(input, n) == input
      else if Stops(input[0]) then Token(input, n) == [] && Left(input, n) == input[1..]
      else Token(input, n) == [input[0]] + Token(input[1..], n + 1) && Left(input, n) == Left(input[1..], n + 1)
  {
  }

  // A C string ends at its first NUL.
  function CString(s: seq<char>): seq<char> {
    if s == [] || s[0] == '\0' then [] else [s[0]] + CString(s[1..])
  }

  lemma {:induction false} CStringPadded(s: seq<char>, zeros: nat)
    ensures CString(s + seq(zeros, _ => '\0')) == CString(s)
  {
    var pad := seq(zeros, _ => '\0');
    if s == [] {
      assert s + pad == pad;
    } else {
      assert (s + pad)[1..] == s[1..] + pad;
      CStringPadded(s[1..], zeros);
    }
  }

  class NumberReader {
    const numberBuffer: array<char>
    var input: seq<char>  // what the console will still give

    ghost predicate Valid()
      reads this
    {
      numberBuffer.Length == MAX_NUM_LENGTH + 2
    }

    constructor (console: seq<char>)
      ensures Valid() && input == console && fresh(numberBuffer)
    {
      numberBuffer := new char[MAX_NUM_LENGTH + 2](_ => '\0');
      input := console;
    }

    method GetChar() returns (c: char)
      modifies `input
      ensures old(input) == [] ==> c == EOF && input == []
      ensures old(input) != [] ==> [c] + input == old(input)
    {
      if input == [] {
        return EOF;
      }
      c := input[0];
      input := input[1..];
    }

    method ReadUntilBlank()
      requires Valid()
      modifies `input, numberBuffer
      ensures numberBuffer[..] == Token(old(input), 0) + seq(MAX_NUM_LENGTH + 2 - |Token(old(input), 0)|, _ => '\0')
      ensures input == Left(old(input), 0)
    {
      hide Token, Left;
      ghost var all := input;
      TokenStep(all, 0);
      forall i | 0 <= i < numberBuffer.Length {
        numberBuffer[i] := '\0';
      }
      var c := GetChar();
      if c == EOF || IsBlank(c) {
        assert numberBuffer[..] == seq(MAX_NUM_LENGTH + 2, _ => '\0');
        return;
      }
      var n := 0;
      ghost var ahead := all;  // the input from c on
      while !Stops(c)
        invariant 0 <= n <= MAX_NUM_LENGTH
        invariant if ahead == [] then c == EOF && input == [] else [c] + input == ahead
        invariant numberBuffer[..n] + Token(ahead, n) == Token(all, 0)
        invariant Left(ahead, n) == Left(all, 0)
        invariant forall i :: n <= i < numberBuffer.Length ==> numberBuffer[i] == '\0'
        decreases |ahead|
      {
        numberBuffer[n] := c;
        TokenStep(ahead, n);
        n := n + 1;
        ahead := input;
        if n > MAX_NUM_LENGTH {
          break;
        }
        c := GetChar();
      }
      TokenStep(ahead, n);
      assert numberBuffer[..] == numberBuffer[..n] + seq(MAX_NUM_LENGTH + 2 - n, _ => '\0');
    }

    /** The next word of the console's input, if it is the canonical numeral of an int,
        gives that int; any other gives 0. */
    method SysReadNum() returns (r: Int32)
      requires Valid()
      modifies `input, numberBuffer
      ensures Means(CString(Token(old(input), 0)), r)
      ensures input == Left(old(input), 0)
    {
      hide Means;
      ReadUntilBlank();
      ghost var t := Token(old(input), 0);
      CStringPadded(t, MAX_NUM_LENGTH + 2 - |t|);
      r := Interpret(CString(numberBuffer[..]));
    }
  }
}
