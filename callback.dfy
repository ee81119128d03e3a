/**
 * The callback data of the admin's "confirm deposit" button:
 * `deposit_confirm_<user id>_<amount>`, built when the user sends a receipt
 * and split on '_' when the admin presses the button (main.py).
 */
module Callback {
  import opened Wrappers

  /** The routing prefix: only callbacks starting with it reach the confirm handler. */
  const ConfirmPrefix: string := "deposit_confirm_"

  predicate StartsWith(s: string, prefix: string)
  {
    |prefix| <= |s| && s[..|prefix|] == prefix
  }

  /** Python's `s.split(sep)`: the pieces between separators, at least one, none holding `sep`. */
  function Split(s: string, sep: char): (parts: seq<string>)
    ensures |parts| >= 1
    ensures forall i :: 0 <= i < |parts| ==> sep !in parts[i]
    decreases |s|
  {
    if |s| == 0 then [""]
    else
      var rest := Split(s[1..], sep);
      if s[0] == sep then [""] + rest
      else [[s[0]] + rest[0]] + rest[1..]
  }

  /** `sep.join(parts)`, the inverse of `Split`. */
  function Join(parts: seq<string>, sep: char): string
    requires |parts| >= 1
  {
    if |parts| == 1 then parts[0] else parts[0] + [sep] + Join(parts[1..], sep)
  }

  lemma {:induction false} JoinSplit(s: string, sep: char)
    ensures Join(Split(s, sep), sep) == s
    decreases |s|
  {
    if |s| > 0 {
      var rest := Split(s[1..], sep);
      JoinSplit(s[1..], sep);
      if s[0] == sep {
        assert ([""] + rest)[1..] == rest;
      } else {
        var parts := [[s[0]] + rest[0]] + rest[1..];
        if |rest| > 1 {
          assert parts[1..] == rest[1..];
        }
      }
    }
  }

  /** A string without the separator is a single piece. */
  lemma {:induction false} SplitWithoutSeparator(s: string, sep: char)
    requires sep !in s
    ensures Split(s, sep) == [s]
    decreases |s|
  {
    if |s| > 0 {
      SplitWithoutSeparator(s[1..], sep);
      assert [s[0]] + s[1..] == s;
    }
  }

  /** Splitting at the first separator: the piece before it, then the split of the rest. */
  lemma {:induction false} SplitAtFirstSeparator(a: string, sep: char, b: string)
    requires sep !in a
    ensures Split(a + [sep] + b, sep) == [a] + Split(b, sep)
    decreases |a|
  {
    var s := a + [sep] + b;
    if |a| == 0 {
      assert s[1..] == b;
    } else {
      assert s[1..] == a[1..] + [sep] + b;
      SplitAtFirstSeparator(a[1..], sep, b);
      var rest := Split(s[1..], sep);
      assert rest[0] == a[1..] && rest[1..] == Split(b, sep);
      assert [a[0]] + a[1..] == a;
    }
  }

  predicate IsDigit(ch: char)
  {
    '0' <= ch <= '9'
  }

  predicate AllDigits(s: string)
  {
    forall i :: 0 <= i < |s| ==> IsDigit(s[i])
  }

  function DigitChar(d: nat): char
    requires d < 10
  {
    ('0' as int + d) as char
  }

  /** The value of a string of decimal digits, most significant first. */
  function DigitsValue(s: string): nat
    requires AllDigits(s)
    decreases |s|
  {
    if |s| == 0 then 0
    else DigitsValue(s[..|s| - 1]) * 10 + (s[|s| - 1] as int - '0' as int)
  }

  /** Python's `str(n)` for a natural number: decimal digits, with no leading zero. */
  function NatToString(n: nat): (s: string)
    ensures |s| >= 1 && AllDigits(s)
    ensures n > 0 ==> s[0] != '0'
  {
    if n < 10 then [DigitChar(n)] else NatToString(n / 10) + [DigitChar(n % 10)]
  }

  /** Python's `str(i)`. */
  function IntToString(i: int): (s: string)
    ensures |s| >= 1
    ensures i < 0 <==> s[0] == '-'
  {
    if i < 0 then "-" + NatToString(-i) else NatToString(i)
  }

  /** Python's `int(s)` on a decimal string: an optional sign and at least one digit. */
  function ParseInt(s: string): Option<int>
  {
    if |s| > 0 && (s[0] == '-' || s[0] == '+') then
      var digits := s[1..];
      if |digits| > 0 && AllDigits(digits) then
        var magnitude: int := DigitsValue(digits);
        Some(if s[0] == '-' then -magnitude else magnitude)
      else None
    else if |s| > 0 && AllDigits(s) then Some(DigitsValue(s))
    else None
  }

  lemma {:induction false} DigitsValueOfNatToString(n: nat)
    ensures DigitsValue(NatToString(n)) == n
  {
    if n >= 10 {
      DigitsValueOfNatToString(n / 10);
      var s := NatToString(n);
      assert s[..|s| - 1] == NatToString(n / 10);
    }
  }

  /** `int(str(i)) == i`. */
  lemma ParseIntOfIntToString(i: int)
    ensures ParseInt(IntToString(i)) == Some(i)
  {
    var s := IntToString(i);
    if i < 0 {
      var digits := NatToString(-i);
      DigitsValueOfNatToString(-i);
      assert s == "-" + digits;
      assert s[0] == '-' && s[1..] == digits;
      var magnitude: int := DigitsValue(digits);
      assert ParseInt(s) == Some(-magnitude);
    } else {
      DigitsValueOfNatToString(i);
      assert s == NatToString(i) && IsDigit(s[0]);
      assert ParseInt(s) == Some(DigitsValue(s));
    }
  }

  lemma IntToStringHasNoUnderscore(i: int)
    ensures '_' !in IntToString(i)
  {
  }

  /** The callback data the receipt handler attaches to the admin's confirm button. */
  function ConfirmData(userId: int, amount: int): (data: string)
    ensures StartsWith(data, ConfirmPrefix)
  {
    ConfirmPrefix + IntToString(userId) + "_" + IntToString(amount)
  }

  /**
   * The admin handler's parse: split on '_' and read pieces 2 and 3 with `int()`.
   * `None` stands for the IndexError or ValueError the handler catches.
   */
  function ParseConfirmData(data: string): Option<(int, int)>
  {
    var parts := Split(data, '_');
    if |parts| < 4 then None
    else
      match (ParseInt(parts[2]), ParseInt(parts[3]))
      case (Some(userId), Some(amount)) => Some((userId, amount))
      case _ => None
  }

  /** Four separator-free pieces joined by `sep` split back into those four pieces. */
  lemma SplitFourPieces(p0: string, p1: string, p2: string, p3: string, sep: char)
    requires sep !in p0 && sep !in p1 && sep !in p2 && sep !in p3
    ensures Split(p0 + [sep] + (p1 + [sep] + (p2 + [sep] + p3)), sep) == [p0, p1, p2, p3]
  {
    var t2 := p2 + [sep] + p3;
    var t1 := p1 + [sep] + t2;
    SplitWithoutSeparator(p3, sep);
    SplitAtFirstSeparator(p2, sep, p3);
    assert Split(t2, sep) == [p2] + [p3] == [p2, p3];
    SplitAtFirstSeparator(p1, sep, t2);
    assert Split(t1, sep) == [p1] + [p2, p3] == [p1, p2, p3];
    SplitAtFirstSeparator(p0, sep, t1);
    assert Split(p0 + [sep] + t1, sep) == [p0] + [p1, p2, p3];
  }

  /** Data built for user `u` and amount `a` parses back to exactly `(u, a)`, and is routed to the handler. */
  lemma ConfirmDataRoundTrip(userId: int, amount: int)
    ensures StartsWith(ConfirmData(userId, amount), ConfirmPrefix)
    ensures ParseConfirmData(ConfirmData(userId, amount)) == Some((userId, amount))
  {
    var u := IntToString(userId);
    var a := IntToString(amount);
    IntToStringHasNoUnderscore(userId);
    IntToStringHasNoUnderscore(amount);
    var deposit, confirm := "deposit", "confirm";
    assert '_' !in deposit && '_' !in confirm;
    assert ConfirmData(userId, amount) == deposit + ['_'] + (confirm + ['_'] + (u + ['_'] + a));
    SplitFourPieces(deposit, confirm, u, a, '_');
    ParseIntOfIntToString(userId);
    ParseIntOfIntToString(amount);
  }
}
