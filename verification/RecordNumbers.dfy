/** Allocating record numbers such as INC0000123 (app.py: _next_in_sequence). */
module RecordNumbers {
  import opened Outcomes

  // ---------------------------------------------------------------- printing and parsing

  function DigitChar(d: nat): char
    requires d < 10
  {
    '0' + d as char
  }

  predicate IsDigit(c: char) { '0' <= c <= '9' }

  function DigitValue(c: char): nat
    requires IsDigit(c)
  {
    (c - '0') as nat
  }

  function Digits(n: nat): string {
    if n < 10 then [DigitChar(n)] else Digits(n / 10) + [DigitChar(n % 10)]
  }

  function Zeros(k: nat): string { seq(k, _ => '0') }

  /** The format `{n:07d}`. */
  function Padded(n: nat): string {
    var s := Digits(n);
    if |s| < 7 then Zeros(7 - |s|) + s else s
  }

  function Number(prefix: string, n: nat): string { prefix + Padded(n) }

  predicate AllDigits(s: string) { forall i :: 0 <= i < |s| ==> IsDigit(s[i]) }

  function Value(s: string): nat
    requires AllDigits(s)
  {
    if s == [] then 0 else 10 * Value(s[..|s| - 1]) + DigitValue(s[|s| - 1])
  }

  /** `int(text)` on plain digits. */
  function Parse(s: string): Option<nat> {
    if s != [] && AllDigits(s) then Some(Value(s)) else None
  }

  lemma {:induction false} ValueOfDigits(n: nat)
    ensures AllDigits(Digits(n)) && |Digits(n)| >= 1 && Value(Digits(n)) == n
  {
    if n < 10 {
      assert Digits(n)[..0] == [];
    } else {
      ValueOfDigits(n / 10);
      assert Digits(n)[..|Digits(n)| - 1] == Digits(n / 10);
    }
  }

  lemma {:induction false} LeadingZeros(k: nat, s: string)
    requires AllDigits(s)
    ensures AllDigits(Zeros(k) + s) && Value(Zeros(k) + s) == Value(s)
    decreases k + |s|
  {
    var all := Zeros(k) + s;
    if s != [] {
      LeadingZeros(k, s[..|s| - 1]);
      assert all[..|all| - 1] == Zeros(k) + s[..|s| - 1];
    } else if k > 0 {
      LeadingZeros(k - 1, s);
      assert all[..|all| - 1] == Zeros(k - 1) + s;
    }
  }

  lemma ValueOfPadded(n: nat)
    ensures AllDigits(Padded(n)) && |Padded(n)| >= 7 && Value(Padded(n)) == n
  {
    ValueOfDigits(n);
    if |Digits(n)| < 7 {
      LeadingZeros(7 - |Digits(n)|, Digits(n));
    }
  }

  lemma {:induction false} DigitsShape(n: nat)
    ensures |Digits(n)| == 1 <==> n < 10
    ensures n >= 10 ==> Digits(n)[0] != '0'
  {
    if n >= 10 {
      DigitsShape(n / 10);
      ValueOfDigits(n / 10);
      if n / 10 < 10 { assert Digits(n / 10) == [DigitChar(n / 10)]; }
    }
  }

  /** Seven digits at least, and no leading zero beyond that. */
  lemma PrintedShape(prefix: string, n: nat)
    ensures var s := Number(prefix, n); |s| >= |prefix| + 7 && (|s| > |prefix| + 7 ==> s[|prefix|] != '0')
  {
    ValueOfPadded(n);
    DigitsShape(n);
  }

  /** Parsing undoes printing. */
  lemma ParseUndoesPrint(prefix: string, n: nat)
    ensures Parse(Number(prefix, n)[|prefix|..]) == Some(n)
  {
    ValueOfPadded(n);
    assert Number(prefix, n)[|prefix|..] == Padded(n);
  }

  // ---------------------------------------------------------------- ordering by length, then text

  /** `a` comes before `b` in the dictionary. */
  predicate TextLess(a: string, b: string) {
    exists k :: 0 <= k <= |a| && k <= |b| && DiffersAt(a, b, k)
  }

  predicate DiffersAt(a: string, b: string, k: nat)
    requires k <= |a| && k <= |b|
  {
    a[..k] == b[..k] && k < |b| && (k == |a| || a[k] < b[k])
  }

  predicate Before(a: string, b: string) {
    |a| < |b| || (|a| == |b| && TextLess(a, b))
  }

  lemma {:induction false} SameValueSameText(a: string, b: string)
    requires AllDigits(a) && AllDigits(b) && |a| == |b| && Value(a) == Value(b)
    ensures a == b
    decreases |a|
  {
    if a != [] {
      var n := |a| - 1;
      SameValueSameText(a[..n], b[..n]);
      assert a == a[..n] + [a[n]] && b == b[..n] + [b[n]];
    }
  }

  /** Dictionary order looks at the last character only when everything before it is equal. */
  lemma TextLessSnoc(c: string, d: string, x: char, y: char)
    requires |c| == |d|
    ensures TextLess(c + [x], d + [y]) <==> TextLess(c, d) || (c == d && x < y)
  {
    var a, b, n := c + [x], d + [y], |c|;
    if TextLess(a, b) {
      var k :| 0 <= k <= |a| && k <= |b| && DiffersAt(a, b, k);
      if k < n {
        assert c[..k] == a[..k] && d[..k] == b[..k];
        assert DiffersAt(c, d, k);
      } else {
        assert c == a[..n] && d == b[..n];
      }
    }
    if TextLess(c, d) {
      var k :| 0 <= k <= |c| && k <= |d| && DiffersAt(c, d, k);
      assert a[..k] == c[..k] && b[..k] == d[..k];
      assert DiffersAt(a, b, k);
    }
    if c == d && x < y {
      assert a[..n] == c && b[..n] == d;
      assert DiffersAt(a, b, n);
    }
  }

  lemma Unsnoc(a: string) returns (c: string, x: char)
    requires a != []
    ensures c == a[..|a| - 1] && x == a[|a| - 1] && a == c + [x]
  {
    c, x := a[..|a| - 1], a[|a| - 1];
  }

  lemma {:induction false} TextOrderIsNumeric(a: string, b: string)
    requires AllDigits(a) && AllDigits(b) && |a| == |b|
    ensures TextLess(a, b) <==> Value(a) < Value(b)
    decreases |a|
  {
    if a != [] {
      var c, x := Unsnoc(a);
      var d, y := Unsnoc(b);
      TextLessSnoc(c, d, x, y);
      TextOrderIsNumeric(c, d);
      if Value(c) == Value(d) { SameValueSameText(c, d); }
    }
  }

  lemma {:induction false} TextTotal(a: string, b: string)
    requires |a| == |b|
    ensures TextLess(a, b) || a == b || TextLess(b, a)
    ensures TextLess(a, b) ==> a != b && !TextLess(b, a)
    decreases |a|
  {
    if a != [] {
      var c, x := Unsnoc(a);
      var d, y := Unsnoc(b);
      TextLessSnoc(c, d, x, y);
      TextLessSnoc(d, c, y, x);
      TextTotal(c, d);
    }
  }

  lemma {:induction false} TextTransitive(a: string, b: string, c: string)
    requires |a| == |b| == |c| && TextLess(a, b) && TextLess(b, c)
    ensures TextLess(a, c)
    decreases |a|
  {
    if a != [] {
      var p, x := Unsnoc(a);
      var q, y := Unsnoc(b);
      var r, z := Unsnoc(c);
      TextLessSnoc(p, q, x, y);
      TextLessSnoc(q, r, y, z);
      TextLessSnoc(p, r, x, z);
      if TextLess(p, q) && TextLess(q, r) { TextTransitive(p, q, r); }
    }
  }

  /** Ordering by length and then text is a strict total order. */
  lemma BeforeIsTotal(a: string, b: string)
    ensures Before(a, b) || a == b || Before(b, a)
    ensures Before(a, b) ==> a != b && !Before(b, a)
  {
    if |a| == |b| { TextTotal(a, b); }
  }

  lemma BeforeIsTransitive(a: string, b: string, c: string)
    requires Before(a, b) && Before(b, c)
    ensures Before(a, c)
  {
    if |a| == |b| == |c| { TextTransitive(a, b, c); }
  }

  lemma {:induction false} LongerIsLater(n: nat, m: nat)
    requires n <= m
    ensures |Digits(n)| <= |Digits(m)| && |Padded(n)| <= |Padded(m)|
    decreases m
  {
    if n >= 10 {
      LongerIsLater(n / 10, m / 10);
    }
  }

  lemma TextLessShift(prefix: string, a: string, b: string)
    requires |a| == |b|
    ensures TextLess(prefix + a, prefix + b) <==> TextLess(a, b)
  {
    var p := |prefix|;
    if TextLess(a, b) {
      var k :| 0 <= k <= |a| && k <= |b| && DiffersAt(a, b, k);
      assert (prefix + a)[..p + k] == prefix + a[..k] && (prefix + b)[..p + k] == prefix + b[..k];
      assert DiffersAt(prefix + a, prefix + b, p + k);
    }
    if TextLess(prefix + a, prefix + b) {
      var k :| 0 <= k <= p + |a| && DiffersAt(prefix + a, prefix + b, k);
      assert k >= p;
      assert a[..k - p] == (prefix + a)[..k][p..] && b[..k - p] == (prefix + b)[..k][p..];
      assert DiffersAt(a, b, k - p);
    }
  }

  /** Ordering by length and then by text is numeric order, also across 9,999,999. */
  lemma OrderIsNumeric(prefix: string, n: nat, m: nat)
    ensures Before(Number(prefix, n), Number(prefix, m)) <==> n < m
  {
    ValueOfPadded(n);
    ValueOfPadded(m);
    if n < m { LongerIsLater(n, m); } else { LongerIsLater(m, n); }
    if |Padded(n)| == |Padded(m)| {
      TextOrderIsNumeric(Padded(n), Padded(m));
      TextLessShift(prefix, Padded(n), Padded(m));
    } else if |Padded(n)| < |Padded(m)| {
      assert n != m;
    }
  }

  // ---------------------------------------------------------------- allocation

  predicate HasPrefix(s: string, prefix: string) { prefix <= s }

  /** The last row with the prefix, by length and then text. */
  function Latest(column: seq<string>, prefix: string): Option<string> {
    if column == [] then None
    else
      var rest, s := Latest(column[..|column| - 1], prefix), column[|column| - 1];
      if HasPrefix(s, prefix) && (rest.None? || Before(rest.value, s)) then Some(s) else rest
  }

  /** The number the latest row carries: 0 without a row, the fallback when it does not parse. */
  function CurrentNumber(latest: Option<string>, prefix: string, fallback: nat): nat {
    if latest.None? || latest.value == "" then 0
    else
      var parsed := if HasPrefix(latest.value, prefix) then Parse(latest.value[|prefix|..]) else None;
      if parsed.Some? then parsed.value else fallback
  }

  /** `_next_in_sequence`. */
  function NextInSequence(column: seq<string>, prefix: string, fallback: nat): string {
    Number(prefix, CurrentNumber(Latest(column, prefix), prefix, fallback) + 1)
  }

  lemma SameNumber(prefix: string, n: nat, m: nat)
    ensures Number(prefix, n) == Number(prefix, m) <==> n == m
  {
    ParseUndoesPrint(prefix, n);
    ParseUndoesPrint(prefix, m);
  }

  // ---------------------------------------------------------------- rows padded in any way

  predicate NumericRow(s: string, prefix: string) {
    prefix < s && AllDigits(s[|prefix|..])
  }

  /** Every row with the prefix carries a number, padded in any way. */
  predicate NumericRows(column: seq<string>, prefix: string) {
    forall i :: 0 <= i < |column| && HasPrefix(column[i], prefix) ==> NumericRow(column[i], prefix)
  }

  function NumberIn(s: string, prefix: string): nat
    requires NumericRow(s, prefix)
  {
    Value(s[|prefix|..])
  }

  lemma PrintedRow(prefix: string, n: nat)
    ensures NumericRow(Number(prefix, n), prefix) && NumberIn(Number(prefix, n), prefix) == n
  {
    ValueOfPadded(n);
    assert Number(prefix, n)[|prefix|..] == Padded(n);
  }

  lemma BeforeIsNumeric(prefix: string, s: string, t: string)
    requires NumericRow(s, prefix) && NumericRow(t, prefix)
    ensures Before(s, t) <==> |s| < |t| || (|s| == |t| && NumberIn(s, prefix) < NumberIn(t, prefix))
  {
    var a, b := s[|prefix|..], t[|prefix|..];
    assert s == prefix + a && t == prefix + b;
    if |s| == |t| {
      TextOrderIsNumeric(a, b);
      TextLessShift(prefix, a, b);
    }
  }

  predicate NoLater(s: string, t: string, prefix: string)
    requires NumericRow(s, prefix) && NumericRow(t, prefix)
  {
    |s| < |t| || (|s| == |t| && NumberIn(s, prefix) <= NumberIn(t, prefix))
  }

  ghost predicate LastOf(column: seq<string>, prefix: string, latest: string)
    requires NumericRows(column, prefix)
  {
    && latest in column && NumericRow(latest, prefix)
    && forall i :: 0 <= i < |column| && HasPrefix(column[i], prefix) ==> NoLater(column[i], latest, prefix)
  }

  predicate HasRows(column: seq<string>, prefix: string) {
    exists i :: 0 <= i < |column| && HasPrefix(column[i], prefix)
  }

  /** The row found is the longest and, among the longest, the one with the highest number. */
  lemma {:induction false} LatestIsLast(column: seq<string>, prefix: string)
    requires NumericRows(column, prefix)
    ensures Latest(column, prefix).Some? <==> HasRows(column, prefix)
    ensures Latest(column, prefix).Some? ==> LastOf(column, prefix, Latest(column, prefix).value)
    decreases |column|
  {
    if column != [] {
      var init, s := column[..|column| - 1], column[|column| - 1];
      assert column == init + [s];
      LatestIsLast(init, prefix);
      var rest := Latest(init, prefix);
      if HasPrefix(s, prefix) && rest.Some? {
        BeforeIsNumeric(prefix, rest.value, s);
      }
    }
  }

  /** The number the next one follows. */
  function Current(column: seq<string>, prefix: string): nat
    requires NumericRows(column, prefix)
  {
    LatestIsLast(column, prefix);
    var latest := Latest(column, prefix);
    if latest.Some? then NumberIn(latest.value, prefix) else 0
  }

  /** On rows with numbers the fallback is never used. */
  lemma NextFollowsCurrent(column: seq<string>, prefix: string, fallback: nat)
    requires NumericRows(column, prefix)
    ensures NextInSequence(column, prefix, fallback) == Number(prefix, Current(column, prefix) + 1)
  {
    LatestIsLast(column, prefix);
  }

  // ---------------------------------------------------------------- the longest rows decide

  predicate Longest(column: seq<string>, prefix: string, i: nat)
    requires i < |column|
  {
    && HasPrefix(column[i], prefix)
    && forall j :: 0 <= j < |column| && HasPrefix(column[j], prefix) ==> |column[j]| <= |column[i]|
  }

  predicate CarriesLargest(column: seq<string>, prefix: string, i: nat)
    requires NumericRows(column, prefix) && i < |column| && HasPrefix(column[i], prefix)
  {
    forall j :: 0 <= j < |column| && HasPrefix(column[j], prefix) ==>
      NumberIn(column[j], prefix) <= NumberIn(column[i], prefix)
  }

  /** The row is no longer than what the allocator prints after it. */
  predicate Tight(s: string, prefix: string)
    requires NumericRow(s, prefix)
  {
    |s| <= |Number(prefix, NumberIn(s, prefix) + 1)|
  }

  /** The next number is larger than every number in the column if and only if one of the longest rows carries
      the largest number. */
  lemma LargestIsFoundExactly(column: seq<string>, prefix: string, fallback: nat)
    requires NumericRows(column, prefix) && HasRows(column, prefix)
    ensures NumericRow(NextInSequence(column, prefix, fallback), prefix)
    ensures (exists i :: 0 <= i < |column| && Longest(column, prefix, i) && CarriesLargest(column, prefix, i)) <==>
      forall j :: 0 <= j < |column| && HasPrefix(column[j], prefix) ==>
        NumberIn(column[j], prefix) < NumberIn(NextInSequence(column, prefix, fallback), prefix)
  {
    LatestIsLast(column, prefix);
    NextFollowsCurrent(column, prefix, fallback);
    PrintedRow(prefix, Current(column, prefix) + 1);
    var k :| 0 <= k < |column| && column[k] == Latest(column, prefix).value;
    assert Longest(column, prefix, k);
  }

  /** A column on which the allocator works: it has no rows yet, or one of the longest is tight. */
  predicate Roomy(column: seq<string>, prefix: string)
    requires NumericRows(column, prefix)
  {
    HasRows(column, prefix) ==> exists i :: 0 <= i < |column| && Longest(column, prefix, i) && Tight(column[i], prefix)
  }

  lemma PrintedLengths(prefix: string, n: nat, m: nat)
    requires n <= m
    ensures |Number(prefix, n)| <= |Number(prefix, m)|
  {
    LongerIsLater(n, m);
  }

  /** Then the row found is tight. */
  lemma LatestIsTight(column: seq<string>, prefix: string)
    requires NumericRows(column, prefix) && HasRows(column, prefix)
    ensures Latest(column, prefix).Some? && NumericRow(Latest(column, prefix).value, prefix)
    ensures Roomy(column, prefix) <==> Tight(Latest(column, prefix).value, prefix)
  {
    LatestIsLast(column, prefix);
    var latest := Latest(column, prefix).value;
    var k :| 0 <= k < |column| && column[k] == latest;
    assert Longest(column, prefix, k);
    if Roomy(column, prefix) {
      var i :| 0 <= i < |column| && Longest(column, prefix, i) && Tight(column[i], prefix);
      PrintedLengths(prefix, NumberIn(column[i], prefix) + 1, NumberIn(latest, prefix) + 1);
    }
  }

  // ---------------------------------------------------------------- the last row of any column

  /** Row `i` comes last in the column's order, among the rows with the prefix. */
  predicate LastRow(column: seq<string>, prefix: string, i: nat)
    requires i < |column|
  {
    && HasPrefix(column[i], prefix)
    && forall j :: 0 <= j < |column| && HasPrefix(column[j], prefix) ==> NotAfter(column[j], column[i])
  }

  predicate NotAfter(s: string, t: string) { s == t || Before(s, t) }

  predicate AllUpTo(column: seq<string>, prefix: string, latest: string) {
    forall j :: 0 <= j < |column| && HasPrefix(column[j], prefix) ==> NotAfter(column[j], latest)
  }

  lemma NotAfterIsTransitive(a: string, b: string, c: string)
    requires NotAfter(a, b) && NotAfter(b, c)
    ensures NotAfter(a, c)
  {
    if Before(a, b) && Before(b, c) { BeforeIsTransitive(a, b, c); }
  }

  /** Whatever the rows look like, the row found is the last one. */
  lemma {:induction false} LatestComesLast(column: seq<string>, prefix: string)
    ensures Latest(column, prefix).Some? <==> HasRows(column, prefix)
    ensures Latest(column, prefix).Some? ==>
      var l := Latest(column, prefix).value; l in column && HasPrefix(l, prefix) && AllUpTo(column, prefix, l)
    decreases |column|
  {
    if column != [] {
      var init, s := column[..|column| - 1], column[|column| - 1];
      assert column == init + [s];
      LatestComesLast(init, prefix);
      var rest := Latest(init, prefix);
      if HasPrefix(s, prefix) && rest.Some? {
        BeforeIsTotal(rest.value, s);
        if Before(rest.value, s) {
          forall j | 0 <= j < |init| && HasPrefix(init[j], prefix) ensures NotAfter(init[j], s) {
            NotAfterIsTransitive(init[j], rest.value, s);
          }
        }
      }
    }
  }

  lemma LatestIsTheLastRow(column: seq<string>, prefix: string, i: nat)
    requires i < |column| && LastRow(column, prefix, i)
    ensures Latest(column, prefix) == Some(column[i])
  {
    LatestComesLast(column, prefix);
    var l := Latest(column, prefix).value;
    var k :| 0 <= k < |column| && column[k] == l;
    assert NotAfter(column[k], column[i]) && NotAfter(column[i], l);
    BeforeIsTotal(l, column[i]);
  }

  /** Storing a row that comes after the row found, and one that does not. */
  lemma LatestSnoc(column: seq<string>, prefix: string, s: string)
    requires HasPrefix(s, prefix)
    ensures var l := Latest(column, prefix);
      Latest(column + [s], prefix) == if l.None? || Before(l.value, s) then Some(s) else l
  {
    assert (column + [s])[..|column|] == column;
  }

  // ---------------------------------------------------------------- serialised allocations

  /** The fallbacks offered to successive allocations: the largest id in the table, which grows with every
      record stored. */
  predicate Rising(fallbacks: seq<nat>, floor: nat)
    decreases fallbacks
  {
    fallbacks != [] ==> fallbacks[0] >= floor && Rising(fallbacks[1..], fallbacks[0] + 1)
  }

  /** `r` are the results of serialised allocations, each stored before the next. */
  predicate Allocations(column: seq<string>, prefix: string, fallbacks: seq<nat>, r: seq<string>)
    decreases r
  {
    r != [] ==>
      && fallbacks != []
      && r[0] == NextInSequence(column, prefix, fallbacks[0])
      && Allocations(column + [r[0]], prefix, fallbacks[1..], r[1..])
  }

  /** The row found carries `top` and leaves room for the next number, or there is none yet. */
  predicate Counting(column: seq<string>, prefix: string, top: nat) {
    var l := Latest(column, prefix);
    if l.None? then top == 0
    else NumericRow(l.value, prefix) && NumberIn(l.value, prefix) == top && Tight(l.value, prefix)
  }

  /** No row is a printed number above `floor`. */
  ghost predicate NoneAbove(column: seq<string>, prefix: string, floor: nat) {
    forall m: nat :: m > floor ==> !InUse(column, prefix, m)
  }

  predicate InUse(column: seq<string>, prefix: string, m: nat) { Number(prefix, m) in column }

  /** The row found carries no number, and the fallback from `floor` on is free. */
  ghost predicate Waiting(column: seq<string>, prefix: string, floor: nat) {
    && Latest(column, prefix).Some?
    && !NumericRow(Latest(column, prefix).value, prefix)
    && NoneAbove(column, prefix, floor)
  }

  lemma CurrentOfRow(s: string, prefix: string, fallback: nat)
    requires HasPrefix(s, prefix) && s != ""
    ensures CurrentNumber(Some(s), prefix, fallback) == if NumericRow(s, prefix) then NumberIn(s, prefix) else fallback
  {
    assert s == prefix + s[|prefix|..];
  }

  lemma PrintedIsTight(prefix: string, n: nat)
    ensures var s := Number(prefix, n); NumericRow(s, prefix) && NumberIn(s, prefix) == n && Tight(s, prefix)
  {
    PrintedRow(prefix, n);
    PrintedLengths(prefix, n, n + 1);
  }

  lemma NextAfterTight(s: string, prefix: string)
    requires NumericRow(s, prefix) && Tight(s, prefix)
    ensures Before(s, Number(prefix, NumberIn(s, prefix) + 1))
  {
    var n := NumberIn(s, prefix) + 1;
    PrintedRow(prefix, n);
    BeforeIsNumeric(prefix, s, Number(prefix, n));
  }

  /** `s` would come last. */
  predicate ComesLast(column: seq<string>, prefix: string, s: string) {
    var l := Latest(column, prefix);
    l.None? || Before(l.value, s)
  }

  lemma LaterIsNew(column: seq<string>, prefix: string, s: string)
    requires HasPrefix(s, prefix) && ComesLast(column, prefix, s)
    ensures s !in column
  {
    LatestComesLast(column, prefix);
    if i :| 0 <= i < |column| && column[i] == s {
      assert NotAfter(column[i], Latest(column, prefix).value);
      BeforeIsTotal(Latest(column, prefix).value, s);
    }
  }

  lemma StoredCounts(column: seq<string>, prefix: string, n: nat, s: string)
    requires s == Number(prefix, n) && ComesLast(column, prefix, s)
    ensures Counting(column + [s], prefix, n)
  {
    PrintedIsTight(prefix, n);
    LatestSnoc(column, prefix, s);
  }

  lemma CountedNext(column: seq<string>, prefix: string, fallback: nat, top: nat)
    requires Counting(column, prefix, top)
    ensures NextInSequence(column, prefix, fallback) == Number(prefix, top + 1)
    ensures ComesLast(column, prefix, Number(prefix, top + 1))
  {
    LatestComesLast(column, prefix);
    var l := Latest(column, prefix);
    if l.Some? {
      CurrentOfRow(l.value, prefix, fallback);
      NextAfterTight(l.value, prefix);
    }
  }

  predicate AllBefore(column: seq<string>, prefix: string, s: string) {
    forall i :: 0 <= i < |column| && HasPrefix(column[i], prefix) ==> Before(column[i], s)
  }

  lemma AllBeforeIsComesLast(column: seq<string>, prefix: string, s: string)
    ensures AllBefore(column, prefix, s) <==> ComesLast(column, prefix, s)
  {
    LatestComesLast(column, prefix);
    if HasRows(column, prefix) {
      var l := Latest(column, prefix).value;
      if Before(l, s) {
        forall i | 0 <= i < |column| && HasPrefix(column[i], prefix) ensures Before(column[i], s) {
          assert NotAfter(column[i], l);
          if Before(column[i], l) { BeforeIsTransitive(column[i], l, s); }
        }
      }
    }
  }

  /** Where every row carries a number, the next one comes after every existing row, in the column's order, if and
      only if the column is roomy. */
  lemma NextComesLast(column: seq<string>, prefix: string, fallback: nat)
    requires NumericRows(column, prefix)
    ensures Roomy(column, prefix) <==> AllBefore(column, prefix, NextInSequence(column, prefix, fallback))
  {
    var next := NextInSequence(column, prefix, fallback);
    AllBeforeIsComesLast(column, prefix, next);
    LatestComesLast(column, prefix);
    if HasRows(column, prefix) {
      LatestIsTight(column, prefix);
      RoomDecides(Latest(column, prefix).value, prefix, fallback, next);
    }
  }

  lemma RoomDecides(s: string, prefix: string, fallback: nat, next: string)
    requires NumericRow(s, prefix) && next == Number(prefix, CurrentNumber(Some(s), prefix, fallback) + 1)
    ensures Tight(s, prefix) <==> Before(s, next)
  {
    CurrentOfRow(s, prefix, fallback);
    if Tight(s, prefix) { NextAfterTight(s, prefix); }
  }

  /** The number printed on a column that counts, and after storing it. */
  lemma CountOne(column: seq<string>, prefix: string, fallback: nat, top: nat, next: string)
    requires Counting(column, prefix, top) && next == NextInSequence(column, prefix, fallback)
    ensures next == Number(prefix, top + 1) && next !in column && Counting(column + [next], prefix, top + 1)
  {
    CountedNext(column, prefix, fallback, top);
    LaterIsNew(column, prefix, next);
    StoredCounts(column, prefix, top + 1, next);
  }

  lemma StillNoneAbove(column: seq<string>, prefix: string, floor: nat, n: nat)
    requires NoneAbove(column, prefix, floor) && n >= floor
    ensures NoneAbove(column + [Number(prefix, n)], prefix, n)
  {
    forall m: nat | m > n ensures !InUse(column + [Number(prefix, n)], prefix, m) {
      assert !InUse(column, prefix, m);
      SameNumber(prefix, m, n);
    }
  }

  lemma WaitedNext(column: seq<string>, prefix: string, fallback: nat)
    requires prefix != "" && Latest(column, prefix).Some? && !NumericRow(Latest(column, prefix).value, prefix)
    ensures NextInSequence(column, prefix, fallback) == Number(prefix, fallback + 1)
  {
    LatestComesLast(column, prefix);
    CurrentOfRow(Latest(column, prefix).value, prefix, fallback);
  }

  /** The number printed while the fallback is used, and after storing it. */
  lemma WaitOne(column: seq<string>, prefix: string, fallback: nat, floor: nat, next: string)
    requires prefix != "" && Waiting(column, prefix, floor) && fallback >= floor
    requires next == NextInSequence(column, prefix, fallback)
    ensures next == Number(prefix, fallback + 1) && next !in column
    ensures Counting(column + [next], prefix, fallback + 1) || Waiting(column + [next], prefix, fallback + 1)
  {
    WaitedNext(column, prefix, fallback);
    assert !InUse(column, prefix, fallback + 1);
    if ComesLast(column, prefix, next) {
      StoredCounts(column, prefix, fallback + 1, next);
    } else {
      LatestSnoc(column, prefix, next);
      StillNoneAbove(column, prefix, floor, fallback + 1);
    }
  }

  predicate Printed(r: seq<string>, prefix: string, ns: seq<nat>) {
    |ns| == |r| && forall i :: 0 <= i < |r| ==> r[i] == Number(prefix, ns[i])
  }

  predicate Ascending(ns: seq<nat>, low: nat) {
    && (forall i :: 0 <= i < |ns| ==> ns[i] > low)
    && (forall i, j :: 0 <= i < j < |ns| ==> ns[i] < ns[j])
  }

  lemma AscendingCons(n: nat, rest: seq<nat>, low: nat)
    requires n > low && Ascending(rest, n)
    ensures Ascending([n] + rest, low)
  {
  }

  lemma PrintedCons(r: seq<string>, prefix: string, n: nat, rest: seq<nat>)
    requires r != [] && r[0] == Number(prefix, n) && Printed(r[1..], prefix, rest)
    ensures Printed(r, prefix, [n] + rest)
  {
    forall i | 0 < i < |r| ensures r[i] == Number(prefix, ([n] + rest)[i]) {
      assert r[i] == r[1..][i - 1];
    }
  }

  ghost predicate Good(column: seq<string>, prefix: string, floor: nat, low: nat) {
    Counting(column, prefix, low) || (Waiting(column, prefix, floor) && low == floor)
  }

  lemma GoodStep(column: seq<string>, prefix: string, floor: nat, low: nat, f: nat, next: string) returns (n: nat)
    requires prefix != "" && Good(column, prefix, floor, low) && f >= floor && next == NextInSequence(column, prefix, f)
    ensures n > low && next == Number(prefix, n) && next !in column && Good(column + [next], prefix, f + 1, n)
  {
    if Counting(column, prefix, low) {
      n := low + 1;
      CountOne(column, prefix, f, low, next);
    } else {
      n := f + 1;
      WaitOne(column, prefix, f, floor, next);
    }
  }

  /** Allocations on a column that counts or waits are new and climb. */
  lemma {:induction false} GoodRun(
    column: seq<string>, prefix: string, floor: nat, low: nat, fallbacks: seq<nat>, r: seq<string>)
    returns (ns: seq<nat>)
    requires prefix != "" && Rising(fallbacks, floor) && Allocations(column, prefix, fallbacks, r)
    requires Good(column, prefix, floor, low)
    ensures Ascending(ns, low) && Printed(r, prefix, ns) && forall i :: 0 <= i < |r| ==> r[i] !in column
    decreases r
  {
    ns := [];
    if r != [] {
      var n := GoodStep(column, prefix, floor, low, fallbacks[0], r[0]);
      var rest := GoodRun(column + [r[0]], prefix, fallbacks[0] + 1, n, fallbacks[1..], r[1..]);
      AscendingCons(n, rest, low);
      PrintedCons(r, prefix, n, rest);
      ns := [n] + rest;
      assert forall i :: 1 <= i < |r| ==> r[i] == r[1..][i - 1];
    }
  }

  lemma InOrder(prefix: string, n: nat, m: nat, s: string, t: string)
    requires n < m && s == Number(prefix, n) && t == Number(prefix, m)
    ensures Before(s, t) && s != t
  {
    OrderIsNumeric(prefix, n, m);
    BeforeIsTotal(s, t);
  }

  /** The allocations are strictly increasing in the column's own order, all different, and none was in use. */
  ghost predicate Fresh(column: seq<string>, r: seq<string>) {
    && (forall i :: 0 <= i < |r| ==> r[i] !in column)
    && (forall i, j :: 0 <= i < j < |r| ==> Before(r[i], r[j]) && r[i] != r[j])
  }

  lemma GoodRunIsFresh(
    column: seq<string>, prefix: string, floor: nat, low: nat, fallbacks: seq<nat>, r: seq<string>)
    requires prefix != "" && Rising(fallbacks, floor) && Allocations(column, prefix, fallbacks, r)
    requires Good(column, prefix, floor, low)
    ensures Fresh(column, r)
  {
    var ns := GoodRun(column, prefix, floor, low, fallbacks, r);
    forall i, j | 0 <= i < j < |r| ensures Before(r[i], r[j]) && r[i] != r[j] {
      InOrder(prefix, ns[i], ns[j], r[i], r[j]);
    }
  }

  /** The column the allocator works on, when the fallback is never below `floor`: it has no rows yet; or its
      last row carries a number and is no longer than the number printed after it; or its last row carries no
      number and no printed number above `floor` is in use. */
  ghost predicate Safe(column: seq<string>, prefix: string, floor: nat) {
    HasRows(column, prefix) ==>
      exists i :: 0 <= i < |column| && LastRow(column, prefix, i) && SafeAfter(column, prefix, floor, i)
  }

  ghost predicate SafeAfter(column: seq<string>, prefix: string, floor: nat, i: nat)
    requires i < |column|
  {
    if NumericRow(column[i], prefix) then Tight(column[i], prefix) else NoneAbove(column, prefix, floor)
  }

  lemma SafeIsGood(column: seq<string>, prefix: string, floor: nat)
    requires Safe(column, prefix, floor)
    ensures exists low :: Good(column, prefix, floor, low)
  {
    LatestComesLast(column, prefix);
    if HasRows(column, prefix) {
      var i :| 0 <= i < |column| && LastRow(column, prefix, i) && SafeAfter(column, prefix, floor, i);
      LatestIsTheLastRow(column, prefix, i);
      if NumericRow(column[i], prefix) {
        assert Good(column, prefix, floor, NumberIn(column[i], prefix));
      } else {
        assert Good(column, prefix, floor, floor);
      }
    } else {
      assert Good(column, prefix, floor, 0);
    }
  }

  /** When the row found is too long, storing the next number changes nothing: it is handed out twice. */
  lemma StuckAllocator(column: seq<string>, prefix: string, f: nat, g: nat)
    requires var l := Latest(column, prefix); l.Some? && NumericRow(l.value, prefix) && !Tight(l.value, prefix)
    ensures var next := NextInSequence(column, prefix, f); Allocations(column, prefix, [f, g], [next, next])
  {
    var l, next := Latest(column, prefix).value, NextInSequence(column, prefix, f);
    CurrentOfRow(l, prefix, f);
    CurrentOfRow(l, prefix, g);
    assert next == Number(prefix, NumberIn(l, prefix) + 1);
    LatestSnoc(column, prefix, next);
    BeforeIsTotal(l, next);
    assert NextInSequence(column + [next], prefix, g) == next;
    assert [next, next][1..] == [next] && [next][1..] == [] && [f, g][1..] == [g];
    assert Allocations(column + [next] + [next], prefix, [g][1..], []);
    assert Allocations(column + [next], prefix, [g], [next]);
  }

  lemma UsedFallback(column: seq<string>, prefix: string, m: nat)
    requires prefix != "" && m > 0 && Latest(column, prefix).Some? && !NumericRow(Latest(column, prefix).value, prefix)
    ensures Allocations(column, prefix, [m - 1], [Number(prefix, m)])
  {
    WaitedNext(column, prefix, m - 1);
    assert [Number(prefix, m)][1..] == [];
    assert Allocations(column + [Number(prefix, m)], prefix, [m - 1][1..], []);
  }

  lemma TwiceTheSame(column: seq<string>, floor: nat, next: string)
    ensures Rising([floor, floor + 1], floor) && !Fresh(column, [next, next])
  {
    assert [floor, floor + 1][1..] == [floor + 1] && [floor + 1][1..] == [];
    assert Rising([floor + 1], floor + 1);
    assert [next, next][0] == [next, next][1];
  }

  lemma AlreadyThere(column: seq<string>, prefix: string, floor: nat, m: nat)
    requires m > floor && InUse(column, prefix, m)
    ensures Rising([m - 1], floor) && !Fresh(column, [Number(prefix, m)])
  {
    assert [m - 1][1..] == [];
    assert [Number(prefix, m)][0] in column;
  }

  lemma UnsafeCollides(column: seq<string>, prefix: string, floor: nat) returns (fallbacks: seq<nat>, r: seq<string>)
    requires prefix != "" && !Safe(column, prefix, floor)
    ensures Rising(fallbacks, floor) && Allocations(column, prefix, fallbacks, r) && !Fresh(column, r)
  {
    LatestComesLast(column, prefix);
    var l := Latest(column, prefix).value;
    var k :| 0 <= k < |column| && column[k] == l;
    assert LastRow(column, prefix, k) && !SafeAfter(column, prefix, floor, k);
    if NumericRow(l, prefix) {
      var next := NextInSequence(column, prefix, floor);
      StuckAllocator(column, prefix, floor, floor + 1);
      TwiceTheSame(column, floor, next);
      fallbacks, r := [floor, floor + 1], [next, next];
    } else {
      var m: nat :| m > floor && InUse(column, prefix, m);
      UsedFallback(column, prefix, m);
      AlreadyThere(column, prefix, floor, m);
      fallbacks, r := [m - 1], [Number(prefix, m)];
    }
  }

  ghost predicate FreshRun(column: seq<string>, prefix: string, floor: nat, fallbacks: seq<nat>, r: seq<string>) {
    Rising(fallbacks, floor) && Allocations(column, prefix, fallbacks, r) ==> Fresh(column, r)
  }

  /** Serialised allocations never collide, whatever the rows look like, however many there are and whatever
      rising fallbacks they are offered, if and only if the column is safe. */
  lemma AllocationsNeverCollide(column: seq<string>, prefix: string, floor: nat)
    requires prefix != ""
    ensures Safe(column, prefix, floor) <==> forall fallbacks, r :: FreshRun(column, prefix, floor, fallbacks, r)
  {
    if Safe(column, prefix, floor) {
      SafeIsGood(column, prefix, floor);
      var low: nat :| Good(column, prefix, floor, low);
      forall fallbacks, r ensures FreshRun(column, prefix, floor, fallbacks, r) {
        if Rising(fallbacks, floor) && Allocations(column, prefix, fallbacks, r) {
          GoodRunIsFresh(column, prefix, floor, low, fallbacks, r);
        }
      }
    } else {
      var fallbacks, r := UnsafeCollides(column, prefix, floor);
      assert !FreshRun(column, prefix, floor, fallbacks, r);
    }
  }

  /** The i-th allocation is the i-th number after the last row's. */
  predicate CountsUp(r: seq<string>, prefix: string, top: nat) {
    forall i :: 0 <= i < |r| ==> r[i] == Number(prefix, top + i + 1)
  }

  lemma CountsUpCons(r: seq<string>, prefix: string, top: nat)
    requires r != [] && r[0] == Number(prefix, top + 1) && CountsUp(r[1..], prefix, top + 1)
    ensures CountsUp(r, prefix, top)
  {
    forall i | 0 < i < |r| ensures r[i] == Number(prefix, top + i + 1) {
      assert r[i] == r[1..][i - 1];
    }
  }

  /** After a last row with a number and room, the allocations count up one by one and the fallback is not used. */
  lemma {:induction false} AllocatedCountsUp(
    column: seq<string>, prefix: string, fallbacks: seq<nat>, r: seq<string>, top: nat)
    requires Counting(column, prefix, top) && Allocations(column, prefix, fallbacks, r)
    ensures CountsUp(r, prefix, top)
    decreases r
  {
    if r != [] {
      CountOne(column, prefix, fallbacks[0], top, r[0]);
      AllocatedCountsUp(column + [r[0]], prefix, fallbacks[1..], r[1..], top + 1);
      CountsUpCons(r, prefix, top);
    }
  }

  /** Where every row carries a number, that is: it has no rows yet or one of the longest is tight. */
  lemma SafeIsRoomy(column: seq<string>, prefix: string, floor: nat)
    requires NumericRows(column, prefix)
    ensures Safe(column, prefix, floor) <==> Roomy(column, prefix)
  {
    if HasRows(column, prefix) {
      LatestIsTight(column, prefix);
      LatestComesLast(column, prefix);
      var l := Latest(column, prefix).value;
      var k :| 0 <= k < |column| && column[k] == l;
      assert LastRow(column, prefix, k);
      if Safe(column, prefix, floor) {
        var i :| 0 <= i < |column| && LastRow(column, prefix, i) && SafeAfter(column, prefix, floor, i);
        LatestIsTheLastRow(column, prefix, i);
      }
    }
  }

  // ---------------------------------------------------------------- columns the allocator filled itself

  /** Every row with the prefix was printed as a number of this sequence. */
  ghost predicate Canonical(column: seq<string>, prefix: string) {
    forall i :: 0 <= i < |column| && HasPrefix(column[i], prefix) ==> exists n: nat :: column[i] == Number(prefix, n)
  }

  lemma CanonicalRow(s: string, prefix: string)
    requires exists n: nat :: s == Number(prefix, n)
    ensures NumericRow(s, prefix) && s == Number(prefix, NumberIn(s, prefix)) && Tight(s, prefix)
  {
    var n: nat :| s == Number(prefix, n);
    PrintedRow(prefix, n);
    PrintedLengths(prefix, n, n + 1);
  }

  /** Such a column is roomy, and one of its longest rows carries the largest number. */
  lemma CanonicalIsRoomy(column: seq<string>, prefix: string)
    requires Canonical(column, prefix)
    ensures NumericRows(column, prefix) && Roomy(column, prefix)
    ensures HasRows(column, prefix) ==>
      exists i :: 0 <= i < |column| && Longest(column, prefix, i) && CarriesLargest(column, prefix, i)
  {
    forall i | 0 <= i < |column| && HasPrefix(column[i], prefix)
      ensures NumericRow(column[i], prefix) && Tight(column[i], prefix)
      ensures column[i] == Number(prefix, NumberIn(column[i], prefix))
    {
      CanonicalRow(column[i], prefix);
    }
    if HasRows(column, prefix) {
      LatestIsLast(column, prefix);
      var latest := Latest(column, prefix).value;
      var k :| 0 <= k < |column| && column[k] == latest;
      LatestIsTight(column, prefix);
      assert Longest(column, prefix, k);
      forall j | 0 <= j < |column| && HasPrefix(column[j], prefix)
        ensures NumberIn(column[j], prefix) <= NumberIn(latest, prefix)
      {
        OrderIsNumeric(prefix, NumberIn(latest, prefix), NumberIn(column[j], prefix));
        BeforeIsNumeric(prefix, latest, column[j]);
      }
      assert CarriesLargest(column, prefix, k);
    }
  }

  // ---------------------------------------------------------------- two columns padded differently

  /** One row with eight digits, and the allocator hands out the same number again and again. */
  lemma LongRowBlocks(prefix: string, fallback: nat)
    ensures Allocations(
      [prefix + "00000123"], prefix, [fallback, fallback + 1], [Number(prefix, 124), Number(prefix, 124)])
  {
    var column := [prefix + "00000123"];
    EightDigits(prefix);
    SevenDigits(prefix);
    assert column[..0] == [] && HasPrefix(column[0], prefix);
    assert Latest(column, prefix) == Some(column[0]);
    CurrentOfRow(column[0], prefix, fallback);
    StuckAllocator(column, prefix, fallback, fallback + 1);
  }

  lemma EightDigits(prefix: string)
    ensures var row := prefix + "00000123"; NumericRow(row, prefix) && NumberIn(row, prefix) == 123
  {
    assert (prefix + "00000123")[|prefix|..] == "00000123";
    assert "00000123" == Zeros(5) + "123";
    assert Value("123") == 123 by {
      assert "123"[..2] == "12" && "12"[..1] == "1" && "1"[..0] == [];
    }
    LeadingZeros(5, "123");
  }

  lemma SevenDigits(prefix: string)
    ensures |Number(prefix, 124)| == |prefix| + 7
  {
    assert Digits(124) == Digits(12) + ['4'] && Digits(12) == Digits(1) + ['2'];
  }

  /** A row that is the bare prefix counts as a row, and carries no number. */
  lemma BarePrefixUsesFallback(prefix: string, fallback: nat)
    requires prefix != ""
    ensures NextInSequence([prefix], prefix, fallback) == Number(prefix, fallback + 1)
  {
    assert [prefix][..0] == [] && Latest([], prefix) == None;
    assert Latest([prefix], prefix) == Some(prefix);
    CurrentOfRow(prefix, prefix, fallback);
  }

  /** A row with a higher number but fewer digits is passed over, so the result does not follow the highest
      number in the column. */
  lemma ShortRowIsPassedOver(prefix: string, fallback: nat)
    ensures var column := [prefix + "9999", Number(prefix, 8)];
      && NumericRows(column, prefix)
      && NextInSequence(column, prefix, fallback) == Number(prefix, 9)
      && NumberIn(column[0], prefix) == 9999
  {
    var short, long := prefix + "9999", Number(prefix, 8);
    var column := [short, long];
    assert short[|prefix|..] == "9999";
    assert Value("9999") == 9999 by {
      assert "9999"[..3] == "999" && "999"[..2] == "99" && "99"[..1] == "9" && "9"[..0] == [];
    }
    PrintedRow(prefix, 8);
    ValueOfPadded(8);
    assert |short| < |long|;
    assert column[..1] == [short] && [short][..0] == [];
    assert Latest([short], prefix) == Some(short);
    assert Latest(column, prefix) == Some(long);
  }
}
