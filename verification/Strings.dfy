/**
 Text as Python handles it: decimal numbers, `strip`, `int`, `split` and `join`.
 */
module Strings {
  import opened Options
  import Sequences

  // ----- numbers

  function Decimal(n: nat): string {
    if n < 10 then [Digit(n)] else Decimal(n / 10) + [Digit(n % 10)]
  }

  function Digit(d: nat): char
    requires d < 10
  {
    (d + '0' as int) as char
  }

  predicate IsDigit(c: char) {
    '0' <= c <= '9'
  }

  predicate AllDigits(s: string) {
    forall i :: 0 <= i < |s| ==> IsDigit(s[i])
  }

  function DigitsValue(s: string): nat
    requires AllDigits(s)
  {
    var n := |s|;
    if n == 0 then 0 else 10 * DigitsValue(s[..n - 1]) + (s[n - 1] as int - '0' as int)
  }

  // ----- white space

  predicate IsSpace(c: char) {
    c == ' ' || '\t' <= c <= '\r'
  }

  /** Python's white space: blank, tab, line feed, vertical tab, form feed and return. */
  lemma SpacesAre(c: char)
    ensures IsSpace(c) <==> c in [' ', '\t', '\n', 11 as char, 12 as char, '\r']
  {
  }

  function Strip(s: string): string {
    StripRight(StripLeft(s))
  }

  function StripLeft(s: string): string {
    if s != "" && IsSpace(s[0]) then StripLeft(s[1..]) else s
  }

  function StripRight(s: string): string {
    if s != "" && IsSpace(s[|s| - 1]) then StripRight(s[..|s| - 1]) else s
  }

  // ----- reading numbers

  /** Python's `int(s)`, or its `long(s)`, which allows a trailing L. */
  function Number(s: string, isLong: bool): Option<int> {
    Signed(Strip(s), isLong)
  }

  function Signed(t: string, isLong: bool): Option<int> {
    if t != "" && t[0] == '+' then Unsigned(t[1..], isLong)
    else if t != "" && t[0] == '-' then
      match Unsigned(t[1..], isLong)
      case Some(n) => Some(-n)
      case None => None
    else Unsigned(t, isLong)
  }

  function Unsigned(u: string, isLong: bool): Option<int> {
    var v := if isLong && u != "" && (u[|u| - 1] == 'L' || u[|u| - 1] == 'l') then u[..|u| - 1] else u;
    if v == "" || !AllDigits(v) then None else Some(DigitsValue(v))
  }

  lemma {:induction false} DecimalDigits(n: nat)
    ensures Decimal(n) != "" && AllDigits(Decimal(n)) && DigitsValue(Decimal(n)) == n
  {
    if n >= 10 {
      DecimalDigits(n / 10);
      var s := Decimal(n);
      assert s[..|s| - 1] == Decimal(n / 10);
    }
  }

  /** Text that `strip` leaves alone. */
  predicate Tight(s: string) {
    s == "" || (!IsSpace(s[0]) && !IsSpace(s[|s| - 1]))
  }

  predicate Blank(s: string) {
    forall i :: 0 <= i < |s| ==> IsSpace(s[i])
  }

  lemma {:induction false} StripLeftOf(before: string, s: string)
    requires Blank(before) && (s == "" || !IsSpace(s[0]))
    ensures StripLeft(before + s) == s
  {
    if before == "" {
      assert before + s == s;
    } else {
      assert (before + s)[1..] == before[1..] + s;
      StripLeftOf(before[1..], s);
    }
  }

  lemma {:induction false} StripRightOf(s: string, after: string)
    requires Blank(after) && (s == "" || !IsSpace(s[|s| - 1]))
    ensures StripRight(s + after) == s
  {
    if after == "" {
      assert s + after == s;
    } else {
      assert (s + after)[..|s + after| - 1] == s + after[..|after| - 1];
      StripRightOf(s, after[..|after| - 1]);
    }
  }

  lemma {:induction false} StripLeftDrops(s: string) returns (before: string)
    ensures Blank(before) && s == before + StripLeft(s)
    ensures StripLeft(s) == "" || !IsSpace(StripLeft(s)[0])
  {
    before := "";
    if s != "" && IsSpace(s[0]) {
      var rest := StripLeftDrops(s[1..]);
      before := [s[0]] + rest;
      Sequences.Regroup([s[0]], rest, StripLeft(s[1..]));
    }
  }

  lemma {:induction false} StripRightDrops(s: string) returns (after: string)
    ensures Blank(after) && s == StripRight(s) + after
  {
    after := "";
    if s != "" && IsSpace(s[|s| - 1]) {
      var rest := StripRightDrops(s[..|s| - 1]);
      after := rest + [s[|s| - 1]];
      Sequences.Regroup(StripRight(s[..|s| - 1]), rest, [s[|s| - 1]]);
    }
  }

  lemma StripDrops(s: string) returns (before: string, after: string)
    ensures Blank(before) && Blank(after) && s == before + Strip(s) + after
  {
    before := StripLeftDrops(s);
    after := StripRightDrops(StripLeft(s));
    Sequences.Regroup(before, Strip(s), after);
  }

  /** How a number may be written. */
  datatype Spelling = Spelling(before: string, sign: string, digits: string, suffix: string, after: string) {
    function Text(): string {
      before + (sign + (digits + suffix)) + after
    }

    predicate Valid(isLong: bool) {
      && Blank(before) && Blank(after) && digits != "" && AllDigits(digits)
      && sign in ["", "+", "-"] && suffix in ["", "L", "l"] && (suffix != "" ==> isLong)
    }

    function Value(): int
      requires AllDigits(digits)
    {
      if sign == "-" then 0 - DigitsValue(digits) else DigitsValue(digits)
    }
  }

  lemma UnsignedIsRead(digits: string, suffix: string, isLong: bool)
    requires digits != "" && AllDigits(digits) && suffix in ["", "L", "l"] && (suffix != "" ==> isLong)
    ensures Unsigned(digits + suffix, isLong) == Some(DigitsValue(digits))
  {
    var u := digits + suffix;
    if suffix == "" {
      assert u == digits;
    } else {
      assert u[..|u| - 1] == digits;
    }
  }

  lemma UnsignedIsSpelled(u: string, isLong: bool) returns (digits: string, suffix: string)
    requires Unsigned(u, isLong).Some?
    ensures u == digits + suffix && digits != "" && AllDigits(digits)
    ensures suffix in ["", "L", "l"] && (suffix != "" ==> isLong)
    ensures Unsigned(u, isLong) == Some(DigitsValue(digits))
  {
    if isLong && (u[|u| - 1] == 'L' || u[|u| - 1] == 'l') {
      digits, suffix := u[..|u| - 1], [u[|u| - 1]];
    } else {
      digits, suffix := u, "";
    }
  }

  lemma SignedIsRead(sign: string, u: string, isLong: bool)
    requires u != "" && IsDigit(u[0]) && sign in ["", "+", "-"] && Unsigned(u, isLong).Some?
    ensures var n := Unsigned(u, isLong).value; Signed(sign + u, isLong) == Some(if sign == "-" then 0 - n else n)
  {
    if sign == "" {
      assert sign + u == u;
    } else {
      assert (sign + u)[1..] == u && (sign + u)[0] == sign[0];
    }
  }

  lemma StripBlanks(before: string, t: string, after: string)
    requires Blank(before) && Blank(after) && t != "" && Tight(t)
    ensures Strip(before + t + after) == t
  {
    assert before + t + after == before + (t + after);
    StripLeftOf(before, t + after);
    StripRightOf(t, after);
  }

  lemma CoreIsTight(sign: string, digits: string, suffix: string)
    requires digits != "" && AllDigits(digits) && sign in ["", "+", "-"] && suffix in ["", "L", "l"]
    ensures Tight(sign + (digits + suffix)) && IsDigit((digits + suffix)[0])
  {
    var u := digits + suffix;
    assert u[0] == digits[0];
    assert if suffix == "" then IsDigit(u[|u| - 1]) else u[|u| - 1] == suffix[0];
  }

  lemma SpellingIsRead(p: Spelling, isLong: bool)
    requires p.Valid(isLong)
    ensures Number(p.Text(), isLong) == Some(p.Value())
  {
    CoreIsTight(p.sign, p.digits, p.suffix);
    StripBlanks(p.before, p.sign + (p.digits + p.suffix), p.after);
    UnsignedIsRead(p.digits, p.suffix, isLong);
    SignedIsRead(p.sign, p.digits + p.suffix, isLong);
  }

  lemma SignedIsSpelled(t: string, isLong: bool) returns (sign: string, digits: string, suffix: string)
    requires Signed(t, isLong).Some?
    ensures t == sign + (digits + suffix) && Spelling("", sign, digits, suffix, "").Valid(isLong)
    ensures Signed(t, isLong) == Some(Spelling("", sign, digits, suffix, "").Value())
  {
    if t != "" && (t[0] == '-' || t[0] == '+') {
      sign := [t[0]];
      digits, suffix := UnsignedIsSpelled(t[1..], isLong);
      assert t == sign + t[1..];
    } else {
      sign := "";
      digits, suffix := UnsignedIsSpelled(t, isLong);
      assert t == sign + t;
    }
  }

  lemma ReadIsSpelled(s: string, isLong: bool) returns (p: Spelling)
    requires Number(s, isLong).Some?
    ensures p.Valid(isLong) && p.Text() == s && Number(s, isLong) == Some(p.Value())
  {
    var before, after := StripDrops(s);
    var sign, digits, suffix := SignedIsSpelled(Strip(s), isLong);
    p := Spelling(before, sign, digits, suffix, after);
  }

  /** A text reads as a number if and only if it is written in one of these ways: blanks around
      it, a sign, digits, and for `long` an L. */
  lemma NumberIff(s: string, isLong: bool, n: int)
    ensures Number(s, isLong) == Some(n) <==>
      exists p: Spelling :: p.Valid(isLong) && p.Text() == s && p.Value() == n
  {
    if Number(s, isLong) == Some(n) {
      var p := ReadIsSpelled(s, isLong);
    }
    if p: Spelling :| p.Valid(isLong) && p.Text() == s && p.Value() == n {
      SpellingIsRead(p, isLong);
    }
  }

  lemma NumberOfDecimal(n: nat, isLong: bool)
    ensures Number(Decimal(n), isLong) == Some(n)
  {
    DecimalDigits(n);
    var s := Decimal(n);
    assert IsDigit(s[0]) && IsDigit(s[|s| - 1]);
    assert Strip(s) == s;
  }

  // ----- splitting

  function Index(s: string, c: char): (i: nat)
    requires c in s
    ensures i < |s| && s[i] == c && c !in s[..i]
  {
    if s[0] == c then 0 else Index(s[1..], c) + 1
  }

  function Split(s: string, c: char): (ps: seq<string>)
    ensures ps != []
    decreases |s|
  {
    if c !in s then [s]
    else
      var i := Index(s, c);
      [s[..i]] + Split(s[i + 1..], c)
  }

  function Join(ps: seq<string>, c: char): string
    requires ps != []
  {
    if |ps| == 1 then ps[0] else ps[0] + [c] + Join(ps[1..], c)
  }

  predicate Lacks(ps: seq<string>, c: char) {
    forall i :: 0 <= i < |ps| ==> c !in ps[i]
  }

  lemma {:induction false} IndexAfter(a: string, c: char, rest: string)
    requires c !in a
    ensures Index(a + [c] + rest, c) == |a|
  {
    var s := a + [c] + rest;
    assert s[|a|] == c;
    if a != "" {
      assert s[0] == a[0];
      IndexAfter(a[1..], c, rest);
      assert s[1..] == a[1..] + [c] + rest;
    }
  }

  lemma SplitFirst(a: string, c: char, rest: string)
    requires c !in a
    ensures Split(a + [c] + rest, c) == [a] + Split(rest, c)
  {
    var s := a + [c] + rest;
    IndexAfter(a, c, rest);
    assert s[|a|] == c;
    assert s[..|a|] == a && s[|a| + 1..] == rest;
  }

  lemma {:induction false} SplitJoin(ps: seq<string>, c: char)
    requires ps != [] && Lacks(ps, c)
    ensures Split(Join(ps, c), c) == ps
  {
    assert c !in ps[0];
    if |ps| > 1 {
      SplitJoin(ps[1..], c);
      SplitFirst(ps[0], c, Join(ps[1..], c));
      assert ps == [ps[0]] + ps[1..];
    }
  }

  lemma {:induction false} JoinLacks(ps: seq<string>, c: char, d: char)
    requires ps != [] && Lacks(ps, d) && c != d
    ensures d !in Join(ps, c)
  {
    assert d !in ps[0];
    if |ps| > 1 {
      JoinLacks(ps[1..], c, d);
    }
  }

  lemma {:induction false} JoinSnoc(ps: seq<string>, p: string, c: char)
    requires ps != []
    ensures Join(ps + [p], c) == Join(ps, c) + [c] + p
  {
    if |ps| == 1 {
      assert (ps + [p])[1..] == [p];
    } else {
      JoinSnoc(ps[1..], p, c);
      assert (ps + [p])[1..] == ps[1..] + [p];
    }
  }

  // ----- comparing

  function CompareStrings(a: string, b: string): int {
    if a == [] && b == [] then 0
    else if a == [] then -1
    else if b == [] then 1
    else if a[0] < b[0] then -1
    else if a[0] > b[0] then 1
    else CompareStrings(a[1..], b[1..])
  }

  lemma {:induction false} StringsOrdered(a: string, b: string, c: string)
    ensures CompareStrings(a, b) == -CompareStrings(b, a)
    ensures CompareStrings(a, b) == 0 <==> a == b
    ensures CompareStrings(a, b) <= 0 && CompareStrings(b, c) <= 0 ==> CompareStrings(a, c) <= 0
  {
    if a != [] && b != [] {
      StringsOrdered(a[1..], b[1..], if c == [] then [] else c[1..]);
      assert a == [a[0]] + a[1..] && b == [b[0]] + b[1..];
    }
  }

  /** The first k characters agree, and then a ends or has the lower character. */
  predicate LowerAt(a: string, b: string, k: nat) {
    k <= |a| && k < |b| && a[..k] == b[..k] && (k == |a| || a[k] < b[k])
  }

  /** Strings compare as in a dictionary. */
  lemma {:induction false} StringsCompareIff(a: string, b: string)
    ensures CompareStrings(a, b) < 0 <==> exists k: nat :: LowerAt(a, b, k)
  {
    if a == [] || b == [] || a[0] != b[0] {
      assert b != [] && (a == [] || a[0] < b[0]) ==> LowerAt(a, b, 0);
      if k: nat :| LowerAt(a, b, k) {
        assert k > 0 ==> a[..k][0] == b[..k][0];
      }
    } else {
      StringsCompareIff(a[1..], b[1..]);
      if k: nat :| LowerAt(a[1..], b[1..], k) {
        assert a[..k + 1] == [a[0]] + a[1..][..k] && b[..k + 1] == [b[0]] + b[1..][..k];
        assert LowerAt(a, b, k + 1);
      }
      if k: nat :| LowerAt(a, b, k) {
        assert k > 0 && a[1..][..k - 1] == a[..k][1..] && b[1..][..k - 1] == b[..k][1..];
        assert LowerAt(a[1..], b[1..], k - 1);
      }
    }
  }
}
