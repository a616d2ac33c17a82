/** The text a row is dated with, and the order the database sorts it in.  The text is
    the time of writing in RFC 3339 form, in UTC: date and time of day to the second,
    then, unless it is zero, the fraction of the second in nanoseconds without its
    trailing zeros, then 'Z'. */
module CreatedAt {

  type Nano = n: nat | n < 1_000_000_000

  datatype Time = Time(sec: nat, nano: Nano)

  /** The last `w` decimal digits of a number. */
  function Digits(n: nat, w: nat): (s: string)
    ensures |s| == w && forall i :: 0 <= i < w ==> '0' <= s[i] <= '9'
  {
    if w == 0 then "" else Digits(n / 10, w - 1) + ['0' + (n % 10) as char]
  }

  function Trimmed(s: string): (r: string)
    ensures r <= s && (r == "" || r[|r| - 1] != '0') && forall i :: |r| <= i < |s| ==> s[i] == '0'
  {
    if s != "" && s[|s| - 1] == '0' then Trimmed(s[..|s| - 1]) else s
  }

  /** A fraction as it is written. */
  function Marked(s: string): string {
    ['.'] + s + ['Z']
  }

  /** What follows the seconds. */
  function Tail(t: Time): (s: string)
    ensures |s| <= 11
  {
    if t.nano == 0 then "Z" else Marked(Trimmed(Digits(t.nano, 9)))
  }

  /** The order of texts: by the first character in which they differ. */
  ghost predicate Less(s: string, t: string) {
    exists p :: DifferAt(s, t, p)
  }

  predicate DifferAt(s: string, t: string, p: int) {
    0 <= p <= |s| && p < |t| && s[..p] == t[..p] && (p == |s| || s[p] < t[p])
  }

  /** The text up to the seconds has a fixed width, so it sorts as the seconds do. */
  ghost predicate TextBefore(a: Time, b: Time) {
    a.sec < b.sec || (a.sec == b.sec && Less(Tail(a), Tail(b)))
  }

  predicate TimeBefore(a: Time, b: Time) {
    a.sec < b.sec || (a.sec == b.sec && a.nano < b.nano)
  }

  /* ---------- a number that sorts like the text ---------- */

  const BASE := 0x110001   // one more than there are characters

  function Power(n: nat): (p: nat)
    ensures p > 0
  {
    if n == 0 then 1 else BASE * Power(n - 1)
  }

  function Weight(s: string, n: nat): nat {
    if n == 0 || s == "" then 0 else (s[0] as int + 1) * Power(n - 1) + Weight(s[1..], n - 1)
  }

  /** The rank of a time's text among all such texts. */
  function TextRank(t: Time): nat {
    t.sec * Power(11) + Weight(Tail(t), 11)
  }

  lemma {:induction false} TimesAtLeast(a: nat, b: nat, p: nat)
    requires a < b
    ensures a * p + p <= b * p
  {
    assert b * p == (b - 1) * p + p;
    if a < b - 1 {
      TimesAtLeast(a, b - 1, p);
    }
  }

  lemma {:induction false} WeightIsBelow(s: string, n: nat)
    ensures Weight(s, n) < Power(n)
  {
    if n > 0 && s != "" {
      WeightIsBelow(s[1..], n - 1);
      TimesAtLeast(s[0] as int + 1, BASE, Power(n - 1));
    }
  }

  lemma {:induction false} LessWeighsLess(s: string, t: string, n: nat, p: nat)
    requires |s| <= n && |t| <= n && DifferAt(s, t, p)
    ensures Weight(s, n) < Weight(t, n)
    decreases p
  {
    var a := if s == "" then 0 else s[0] as int + 1;
    if s != "" {
      WeightIsBelow(s[1..], n - 1);
    }
    if p == 0 {
      TimesAtLeast(a, t[0] as int + 1, Power(n - 1));
    } else {
      assert s[0] == s[..p][0] == t[..p][0] == t[0];
      assert s[1..][..p - 1] == s[..p][1..] == t[..p][1..] == t[1..][..p - 1];
      LessWeighsLess(s[1..], t[1..], n - 1, p - 1);
    }
  }

  lemma {:induction false} OneIsLess(s: string, t: string)
    requires s != t
    ensures Less(s, t) || Less(t, s)
  {
    if s == "" {
      assert DifferAt(s, t, 0);
    } else if t == "" {
      assert DifferAt(t, s, 0);
    } else if s[0] != t[0] {
      assert DifferAt(s, t, 0) || DifferAt(t, s, 0);
    } else {
      assert s == [s[0]] + s[1..] && t == [t[0]] + t[1..];
      OneIsLess(s[1..], t[1..]);
      if p :| DifferAt(s[1..], t[1..], p) {
        DiffersOneLater(s, t, p);
      }
      if p :| DifferAt(t[1..], s[1..], p) {
        DiffersOneLater(t, s, p);
      }
    }
  }

  lemma DiffersOneLater(s: string, t: string, p: int)
    requires s != "" && t != "" && s[0] == t[0] && DifferAt(s[1..], t[1..], p)
    ensures DifferAt(s, t, p + 1)
  {
    assert s[..p + 1] == [s[0]] + s[1..][..p] && t[..p + 1] == [t[0]] + t[1..][..p];
  }

  lemma WeightIsOrder(s: string, t: string, n: nat)
    requires |s| <= n && |t| <= n
    ensures Less(s, t) <==> Weight(s, n) < Weight(t, n)
  {
    if p :| DifferAt(s, t, p) {
      LessWeighsLess(s, t, n, p);
    } else if s != t {
      OneIsLess(s, t);
      var p :| DifferAt(t, s, p);
      LessWeighsLess(t, s, n, p);
    }
  }

  /** The ranks sort as the texts do. */
  lemma RankIsTextOrder(a: Time, b: Time)
    ensures TextRank(a) < TextRank(b) <==> TextBefore(a, b)
  {
    hide Less, Tail, Weight, Power;
    WeightIsOrder(Tail(a), Tail(b), 11);
    WeightIsBelow(Tail(a), 11);
    WeightIsBelow(Tail(b), 11);
    if a.sec < b.sec {
      TimesAtLeast(a.sec, b.sec, Power(11));
    } else if a.sec > b.sec {
      TimesAtLeast(b.sec, a.sec, Power(11));
    }
  }

  /* ---------- when texts sort by time ---------- */

  function Ten(w: nat): nat {
    if w == 0 then 1 else 10 * Ten(w - 1)
  }

  lemma {:induction false} DigitsDiffer(x: nat, y: nat, w: nat) returns (p: nat)
    requires x < y < Ten(w)
    ensures p < w && DifferAt(Digits(x, w), Digits(y, w), p)
  {
    var a, b := Digits(x / 10, w - 1), Digits(y / 10, w - 1);
    if x / 10 < y / 10 {
      p := DigitsDiffer(x / 10, y / 10, w - 1);
      assert Digits(x, w)[..p] == a[..p] && Digits(y, w)[..p] == b[..p];
    } else {
      p := w - 1;
      assert Digits(x, w)[..p] == a && Digits(y, w)[..p] == b;
    }
  }

  lemma MarkedDiffer(s: string, t: string, p: nat)
    requires p < |s| && DifferAt(s, t, p)
    ensures DifferAt(Marked(s), Marked(t), p + 1)
  {
    assert Marked(s)[..p + 1] == ['.'] + s[..p] && Marked(t)[..p + 1] == ['.'] + t[..p];
  }

  /** The end mark sorts after every digit. */
  lemma MarkedPrefixSortsLast(s: string, t: string)
    requires |s| < |t| && s == t[..|s|] && t[|s|] <= '9'
    ensures DifferAt(Marked(t), Marked(s), |s| + 1)
  {
    assert Marked(s)[..|s| + 1] == ['.'] + s && Marked(t)[..|s| + 1] == ['.'] + t[..|s|];
  }

  lemma NotBothLess(s: string, t: string)
    requires Less(s, t)
    ensures !Less(t, s)
  {
    WeightIsOrder(s, t, |s| + |t|);
    WeightIsOrder(t, s, |s| + |t|);
  }

  lemma TailsCompare(x: string, y: string, p: nat)
    requires |x| == |y| && DifferAt(x, y, p)
    requires forall i :: 0 <= i < |x| ==> '0' <= x[i] <= '9' && '0' <= y[i] <= '9'
    ensures Less(Marked(Trimmed(x)), Marked(Trimmed(y))) <==> !(Trimmed(x) <= Trimmed(y))
  {
    var tx, ty := Trimmed(x), Trimmed(y);
    var k := |tx|;
    assert p < |ty|;
    hide Trimmed, Marked, Less;
    assert p < k ==> tx[p] == x[p] && ty[p] == y[p];
    if p < k {
      assert tx[..p] == x[..p] && ty[..p] == y[..p] && tx[p] == x[p] && ty[p] == y[p];
      MarkedDiffer(tx, ty, p);
      IsLess(Marked(tx), Marked(ty), p + 1);
    } else {
      assert x[..k] == x[..p][..k] == y[..p][..k] == y[..k] && ty[..k] == y[..k];
      MarkedPrefixSortsLast(tx, ty);
      IsLess(Marked(ty), Marked(tx), k + 1);
      NotBothLess(Marked(ty), Marked(tx));
    }
  }

  lemma IsLess(s: string, t: string, p: int)
    requires DifferAt(s, t, p)
    ensures Less(s, t)
  {
  }

  /** Of two times the text of the earlier one sorts first, unless they fall within the
      same second and the earlier one is the full second or has a fraction whose
      digits, trailing zeros apart, begin those of the later one. */
  lemma TextOrderIsTimeOrderExactlyWhen(a: Time, b: Time)
    requires TimeBefore(a, b)
    ensures TextBefore(a, b) <==>
            a.sec < b.sec || (a.nano != 0 && !(Trimmed(Digits(a.nano, 9)) <= Trimmed(Digits(b.nano, 9))))
  {
    if a.sec == b.sec {
      if a.nano == 0 {
        var rest := Tail(b);
        assert rest[0] == '.' && DifferAt(rest, "Z", 0);
        WeightIsOrder(rest, "Z", 11);
        WeightIsOrder("Z", rest, 11);
      } else {
        BillionIsTen();
        var p := DigitsDiffer(a.nano, b.nano, 9);
        TailsCompare(Digits(a.nano, 9), Digits(b.nano, 9), p);
      }
    }
  }

  lemma BillionIsTen()
    ensures Ten(9) == 1_000_000_000
  {
    assert Ten(3) == 1000 && Ten(6) == 1000 * Ten(3) && Ten(9) == 1000 * Ten(6);
  }

  lemma TrimmedTimesTen(n: nat, w: nat)
    ensures Trimmed(Digits(10 * n, w + 1)) == Trimmed(Digits(n, w))
  {
    assert Digits(10 * n, w + 1) == Digits(n, w) + "0";
    assert (Digits(n, w) + "0")[..w] == Digits(n, w);
  }

  lemma TrimmedAsIs(s: string)
    requires s != "" && s[|s| - 1] != '0'
    ensures Trimmed(s) == s
  {
  }

  lemma OneAndZeros()
    ensures Trimmed(Digits(100_000_000, 9)) == "1"
  {
    assert Digits(0, 0) == "" && Digits(1, 1) == "1";
    hide Trimmed, Digits;
    assert Trimmed("1") == "1" by { TrimmedAsIs("1"); }
    TrimmedTimesTen(1, 1);
    TrimmedTimesTen(10, 2);
    TrimmedTimesTen(100, 3);
    TrimmedTimesTen(1_000, 4);
    TrimmedTimesTen(10_000, 5);
    TrimmedTimesTen(100_000, 6);
    TrimmedTimesTen(1_000_000, 7);
    TrimmedTimesTen(10_000_000, 8);
  }

  lemma FifteenAndZeros()
    ensures Trimmed(Digits(150_000_000, 9)) == "15"
  {
    assert Digits(0, 0) == "" && Digits(1, 1) == "1" && Digits(15, 2) == "15";
    hide Trimmed, Digits;
    assert Trimmed("15") == "15" by { TrimmedAsIs("15"); }
    TrimmedTimesTen(15, 2);
    TrimmedTimesTen(150, 3);
    TrimmedTimesTen(1_500, 4);
    TrimmedTimesTen(15_000, 5);
    TrimmedTimesTen(150_000, 6);
    TrimmedTimesTen(1_500_000, 7);
    TrimmedTimesTen(15_000_000, 8);
  }

  /** A tenth of a second sorts after fifteen hundredths. */
  lemma TenthSortsAfterFifteenHundredths(sec: nat)
    ensures var a, b := Time(sec, 100_000_000), Time(sec, 150_000_000);
            TimeBefore(a, b) && !TextBefore(a, b)
  {
    hide Trimmed, Digits, TextBefore;
    OneAndZeros();
    FifteenAndZeros();
    assert "1" <= "15";
    TextOrderIsTimeOrderExactlyWhen(Time(sec, 100_000_000), Time(sec, 150_000_000));
  }

  /* ---------- the digits are those of the number ---------- */

  function Value(s: string): nat
    requires forall i :: 0 <= i < |s| ==> '0' <= s[i] <= '9'
  {
    if s == "" then 0 else 10 * Value(s[..|s| - 1]) + (s[|s| - 1] as int - '0' as int)
  }

  /** The nine digits of a fraction say its nanoseconds. */
  lemma {:induction false} DigitsSayTheNumber(n: nat, w: nat)
    requires n < Ten(w)
    ensures Value(Digits(n, w)) == n
  {
    if w > 0 {
      DigitsSayTheNumber(n / 10, w - 1);
      assert Digits(n, w)[..w - 1] == Digits(n / 10, w - 1);
    }
  }
}
