/**
 Instants as the services print them (`time.RFC3339Nano` in UTC) and as SQLite compares them: as text.  Date and
 time of day have a fixed width, but the fraction of a second is printed without trailing zeros and left out when
 it is zero, and "Z" follows; so text order is not time order.
 */
module Timestamps {
  import opened Arithmetic
  import opened Numerals
  import opened Order

  const SECOND: int := 1_000_000_000

  /** The first of `k` digits, and the number the others spell. */
  function Top(n: nat, k: nat): nat
    requires k > 0
  {
    Quotient(n, Pow10(k - 1))
  }

  function Rest(n: nat, k: nat): nat
    requires k > 0
  {
    Remainder(n, Pow10(k - 1))
  }

  lemma SplitDigits(n: nat, k: nat)
    requires 0 < n < Pow10(k)
    ensures k > 0 && n == Top(n, k) * Pow10(k - 1) + Rest(n, k) && Rest(n, k) < Pow10(k - 1) && Top(n, k) < 10
  {
    TimesGrows(10, Top(n, k), Pow10(k - 1));
  }

  /** The digits of `n / Pow10(k)` behind the point, without trailing zeros. */
  function Digits(n: nat, k: nat): (s: string)
    requires n < Pow10(k)
    ensures n > 0 <==> s != ""
  {
    if n == 0 then ""
    else
      SplitDigits(n, k);
      [('0' as int + Top(n, k)) as char] + Digits(Rest(n, k), k - 1)
  }

  function Fraction(n: nat): string
    requires n < SECOND
  {
    Billion();
    if n == 0 then "" else "." + Digits(n, 9)
  }

  lemma Billion()
    ensures Pow10(9) == SECOND
  {
    assert Pow10(4) == 10_000 && Pow10(8) == 10_000 * Pow10(4) by {
      assert Pow10(6) == 1_000_000;
    }
  }

  /** `seconds` prints date and time of day of a whole second; what follows is the fraction and "Z". */
  function Text(seconds: int -> string, t: int): string {
    seconds(t / SECOND) + (Fraction(t % SECOND) + "Z")
  }

  /** `a <= b` as SQLite reads it. */
  predicate TextAtMost(seconds: int -> string, a: int, b: int) {
    !Less(Text(seconds, b), Text(seconds, a))
  }

  /** `seconds` is fixed-width and ordered on [lo, hi): true of four-digit years. */
  ghost predicate IsCalendar(seconds: int -> string, lo: int, hi: int) {
    forall a, b :: lo <= a < b < hi ==> |seconds(a)| == |seconds(b)| && Less(seconds(a), seconds(b))
  }

  predicate Within(lo: int, hi: int, t: int) {
    lo <= t / SECOND < hi
  }

  // ----------------------------------------------------------- text of fractions

  lemma FirstDigits(a: nat, b: nat, k: nat)
    requires 0 < a < b < Pow10(k) && k > 0
    ensures Top(a, k) < Top(b, k) || (Top(a, k) == Top(b, k) && Rest(a, k) < Rest(b, k))
  {
    hide Top, Rest, Pow10;
    SplitDigits(a, k);
    SplitDigits(b, k);
    SmallerParts(Top(a, k), Rest(a, k), Top(b, k), Rest(b, k), Pow10(k - 1));
  }

  lemma SmallerParts(q: nat, r: nat, q': nat, r': nat, p: nat)
    requires q * p + r < q' * p + r' && r < p && r' < p
    ensures q < q' || (q == q' && r < r')
  {
    TimesGrows(q' + 1, q, p);
  }

  /** The smaller of two fractions comes first as text unless its digits begin the other's; then it comes last. */
  lemma {:induction false} DigitsInOrder(a: nat, b: nat, k: nat)
    requires a < b < Pow10(k)
    ensures Less(Digits(a, k) + "Z", Digits(b, k) + "Z") <==> !(Digits(a, k) <= Digits(b, k))
    ensures Less(Digits(b, k) + "Z", Digits(a, k) + "Z") <==> Digits(a, k) <= Digits(b, k)
  {
    hide Top, Rest, Pow10;
    SplitDigits(b, k);
    var s, t := Digits(a, k) + "Z", Digits(b, k) + "Z";
    assert t[0] == ('0' as int + Top(b, k)) as char && t[0] < 'Z';
    if a > 0 {
      SplitDigits(a, k);
      FirstDigits(a, b, k);
      assert s[0] == ('0' as int + Top(a, k)) as char;
      assert s[1..] == Digits(Rest(a, k), k - 1) + "Z" && t[1..] == Digits(Rest(b, k), k - 1) + "Z";
      if s[0] == t[0] {
        DigitsInOrder(Rest(a, k), Rest(b, k), k - 1);
        PrefixOfCons(s[0], Digits(Rest(a, k), k - 1), Digits(Rest(b, k), k - 1));
      }
    }
  }

  lemma PrefixOfCons(c: char, s: string, t: string)
    ensures [c] + s <= [c] + t <==> s <= t
  {
    if [c] + s <= [c] + t {
      assert ([c] + t)[1..] == t && ([c] + s)[1..] == s;
      assert forall i :: 0 <= i < |s| ==> s[i] == ([c] + s)[i + 1] == ([c] + t)[i + 1] == t[i];
    }
  }

  // ----------------------------------------------- digits that begin other digits

  /** What the last `m` digits spell. */
  function Low(n: nat, m: nat): (r: nat)
    ensures r <= n
  {
    Remainder(n, Pow10(m))
  }

  /** `a` is `b` with its last digits set to zero. */
  ghost predicate IsCut(a: nat, b: nat, k: nat) {
    exists m: nat :: m <= k && a == b - Low(b, m)
  }

  lemma AllDigitsCut(n: nat, k: nat)
    requires n < Pow10(k)
    ensures Low(n, k) == n && IsCut(0, n, k)
  {
    hide Remainder;
    assert Low(n, k) == n;
  }

  lemma {:induction false} PowersMultiply(m: nat, n: nat)
    ensures Pow10(m + n) == Pow10(m) * Pow10(n)
  {
    if m > 0 {
      PowersMultiply(m - 1, n);
    }
  }

  lemma LowDigits(q: nat, k: nat, r: nat, m: nat)
    requires m <= k
    ensures Low(q * Pow10(k) + r, m) == Low(r, m)
  {
    hide Pow10;
    PowersMultiply(k - m, m);
    TimesAssociate(q, Pow10(k - m), Pow10(m));
    Multiples(q * Pow10(k - m), r, Pow10(m));
  }

  lemma TimesAssociate(a: nat, b: nat, c: nat)
    ensures a * (b * c) == a * b * c
  {
  }

  /** The digits of `a` begin those of `b` exactly when `a` is `b` cut off after some digit. */
  lemma {:induction false} PrefixIsCut(a: nat, b: nat, k: nat)
    requires a < Pow10(k) && b < Pow10(k)
    ensures Digits(a, k) <= Digits(b, k) <==> IsCut(a, b, k)
  {
    hide Pow10, Top, Rest, IsCut, Low;
    if a == 0 {
      AllDigitsCut(b, k);
    } else if b == 0 {
      NothingCut(a, k);
    } else {
      SplitDigits(a, k);
      SplitDigits(b, k);
      CutOfSum(a, b, k);
      PrefixIsCut(Rest(a, k), Rest(b, k), k - 1);
      OneDigit(('0' as int + Top(a, k)) as char, Digits(Rest(a, k), k - 1), ('0' as int + Top(b, k)) as char, Digits(Rest(b, k), k - 1));
    }
  }

  lemma NothingCut(a: nat, k: nat)
    requires a > 0
    ensures !IsCut(a, 0, k)
  {
  }

  lemma OneDigit(c: char, s: string, d: char, t: string)
    ensures [c] + s <= [d] + t <==> c == d && s <= t
  {
    if c == d {
      PrefixOfCons(c, s, t);
    } else {
      assert ([c] + s)[0] != ([d] + t)[0];
    }
  }

  lemma CutOfSum(a: nat, b: nat, k: nat)
    requires 0 < a < Pow10(k) && 0 < b < Pow10(k) && k > 0
    ensures IsCut(a, b, k) <==> Top(a, k) == Top(b, k) && IsCut(Rest(a, k), Rest(b, k), k - 1)
  {
    hide Pow10, Top, Rest, Low;
    SplitDigits(a, k);
    SplitDigits(b, k);
    AllDigitsCut(b, k);
    var q, r, q', r' := Top(a, k), Rest(a, k), Top(b, k), Rest(b, k);
    if IsCut(a, b, k) {
      var m: nat :| m <= k && a == b - Low(b, m);
      assert m != k;
      LowDigits(q', k - 1, r', m);
      SameParts(q, r, q', r' - Low(r', m), Pow10(k - 1));
      assert IsCut(r, r', k - 1);
    }
    if q == q' && IsCut(r, r', k - 1) {
      var m: nat :| m <= k - 1 && r == r' - Low(r', m);
      LowDigits(q', k - 1, r', m);
      assert a == b - Low(b, m);
    }
  }

  lemma SameParts(q: nat, r: nat, q': nat, r': nat, p: nat)
    requires q * p + r == q' * p + r' && r < p && r' < p
    ensures q == q' && r == r'
  {
    Division(q, p, r);
    Division(q', p, r');
  }

  // --------------------------------------------------------------- whole instants

  /** The same second, and `a` is `b` with the last digits of its fraction set to zero. */
  ghost predicate CutOff(a: int, b: int) {
    a < b && a / SECOND == b / SECOND && IsCut(a % SECOND, b % SECOND, 9)
  }

  lemma FractionsInOrder(a: nat, b: nat)
    requires a < b < SECOND
    ensures Less(Fraction(a) + "Z", Fraction(b) + "Z") <==> !IsCut(a, b, 9)
    ensures Less(Fraction(b) + "Z", Fraction(a) + "Z") <==> IsCut(a, b, 9)
  {
    Billion();
    PrefixIsCut(a, b, 9);
    DigitsInOrder(a, b, 9);
    hide Pow10, IsCut, Digits;
    var s, t := Digits(a, 9), Digits(b, 9);
    assert Fraction(b) + "Z" == "." + (t + "Z");
    if a == 0 {
      assert Fraction(a) + "Z" == "Z" && s == "";
      assert ("." + (t + "Z"))[0] == '.';
    } else {
      assert Fraction(a) + "Z" == "." + (s + "Z");
      LessAfterPrefix(".", s + "Z", t + "Z");
      LessAfterPrefix(".", t + "Z", s + "Z");
    }
  }

  lemma {:induction false} SameWidth(p: string, q: string, x: string, y: string)
    requires |p| == |q| && Less(p, q)
    ensures Less(p + x, q + y) && !Less(q + y, p + x)
  {
    assert (p + x)[0] == p[0] && (q + y)[0] == q[0] && (p + x)[1..] == p[1..] + x && (q + y)[1..] == q[1..] + y;
    if p[0] == q[0] {
      SameWidth(p[1..], q[1..], x, y);
    }
  }

  lemma Seconds(a: int, b: int)
    requires a < b
    ensures a / SECOND < b / SECOND || (a / SECOND == b / SECOND && a % SECOND < b % SECOND)
  {
  }

  /**
   Text order is time order except between an instant and the same instant with its last digits cut off: then it
   is the wrong way round.
   */
  lemma TextOrder(seconds: int -> string, lo: int, hi: int, a: int, b: int)
    requires IsCalendar(seconds, lo, hi) && Within(lo, hi, a) && Within(lo, hi, b) && a < b
    ensures Less(Text(seconds, a), Text(seconds, b)) <==> !CutOff(a, b)
    ensures Less(Text(seconds, b), Text(seconds, a)) <==> CutOff(a, b)
  {
    Seconds(a, b);
    hide Fraction, IsCut;
    var x, y := Fraction(a % SECOND) + "Z", Fraction(b % SECOND) + "Z";
    if a / SECOND < b / SECOND {
      SameWidth(seconds(a / SECOND), seconds(b / SECOND), x, y);
    } else {
      FractionsInOrder(a % SECOND, b % SECOND);
      LessAfterPrefix(seconds(a / SECOND), x, y);
      LessAfterPrefix(seconds(a / SECOND), y, x);
    }
  }

  /** When `a <= b` is read off the text: it is so, unless one is the other cut off; then only the longer text is less. */
  lemma TextAtMostExactly(seconds: int -> string, lo: int, hi: int, a: int, b: int)
    requires IsCalendar(seconds, lo, hi) && Within(lo, hi, a) && Within(lo, hi, b)
    ensures TextAtMost(seconds, a, b) <==> (a <= b && !CutOff(a, b)) || CutOff(b, a)
  {
    hide Text, IsCalendar, IsCut;
    if a < b {
      TextOrder(seconds, lo, hi, a, b);
    } else if b < a {
      TextOrder(seconds, lo, hi, b, a);
    } else {
      LessIrreflexive(Text(seconds, a));
    }
  }

  /** A whole second is every later instant of that second cut off, so it is printed last of them all. */
  lemma WholeSecondIsCut(s: int, n: nat)
    requires 0 < n < SECOND
    ensures CutOff(s * SECOND, s * SECOND + n)
  {
    Billion();
    AllDigitsCut(n, 9);
    hide IsCut, Pow10;
  }

  // ------------------------------------------------------ nine digits, always

  /** The `k` digits of `n`, zeros included. */
  function AllDigits(n: nat, k: nat): (s: string)
    requires n < Pow10(k)
    ensures |s| == k
  {
    if k == 0 then ""
    else
      FirstDigit(n, k);
      [('0' as int + Top(n, k)) as char] + AllDigits(Rest(n, k), k - 1)
  }

  lemma FirstDigit(n: nat, k: nat)
    requires n < Pow10(k) && k > 0
    ensures n == Top(n, k) * Pow10(k - 1) + Rest(n, k) && Rest(n, k) < Pow10(k - 1) && Top(n, k) < 10
  {
    TimesGrows(10, Top(n, k), Pow10(k - 1));
  }

  lemma {:induction false} AllDigitsInOrder(a: nat, b: nat, k: nat)
    requires a < b < Pow10(k)
    ensures Less(AllDigits(a, k), AllDigits(b, k))
  {
    FirstDigit(a, k);
    FirstDigit(b, k);
    SmallerParts(Top(a, k), Rest(a, k), Top(b, k), Rest(b, k), Pow10(k - 1));
    if Top(a, k) == Top(b, k) {
      AllDigitsInOrder(Rest(a, k), Rest(b, k), k - 1);
    }
  }

  /** The layout of audit events and pagination cursors: always nine digits. */
  function FixedText(seconds: int -> string, t: int): string {
    Billion();
    seconds(t / SECOND) + ("." + AllDigits(t % SECOND, 9) + "Z")
  }

  /** In the fixed layout text order is time order. */
  lemma FixedTextOrder(seconds: int -> string, lo: int, hi: int, a: int, b: int)
    requires IsCalendar(seconds, lo, hi) && Within(lo, hi, a) && Within(lo, hi, b)
    ensures Less(FixedText(seconds, a), FixedText(seconds, b)) <==> a < b
    ensures FixedText(seconds, a) == FixedText(seconds, b) <==> a == b
  {
    LessIrreflexive(FixedText(seconds, a));
    if a < b {
      EarlierText(seconds, lo, hi, a, b);
    } else if b < a {
      EarlierText(seconds, lo, hi, b, a);
    }
  }

  lemma EarlierText(seconds: int -> string, lo: int, hi: int, a: int, b: int)
    requires IsCalendar(seconds, lo, hi) && Within(lo, hi, a) && Within(lo, hi, b) && a < b
    ensures Less(FixedText(seconds, a), FixedText(seconds, b)) && !Less(FixedText(seconds, b), FixedText(seconds, a))
  {
    Seconds(a, b);
    Billion();
    var m, n := a % SECOND, b % SECOND;
    hide AllDigits, Pow10;
    if a / SECOND < b / SECOND {
      SameWidth(seconds(a / SECOND), seconds(b / SECOND), "." + AllDigits(m, 9) + "Z", "." + AllDigits(n, 9) + "Z");
    } else {
      AllDigitsInOrder(m, n, 9);
      SameWidth(AllDigits(m, 9), AllDigits(n, 9), "Z", "Z");
      assert "." + AllDigits(m, 9) + "Z" == "." + (AllDigits(m, 9) + "Z") && "." + AllDigits(n, 9) + "Z" == "." + (AllDigits(n, 9) + "Z");
      LessAfterPrefix(".", AllDigits(m, 9) + "Z", AllDigits(n, 9) + "Z");
      LessAfterPrefix(".", AllDigits(n, 9) + "Z", AllDigits(m, 9) + "Z");
      LessAfterPrefix(seconds(a / SECOND), "." + AllDigits(m, 9) + "Z", "." + AllDigits(n, 9) + "Z");
      LessAfterPrefix(seconds(a / SECOND), "." + AllDigits(n, 9) + "Z", "." + AllDigits(m, 9) + "Z");
    }
  }
}
