/** Decimal numbers: printing as fmt::format_int does, scanning as strtol and strtoul do. */
module Decimal {

  predicate IsDigit(ch: char) { '0' <= ch <= '9' }

  function DigitOf(d: nat): char { if d < 10 then '0' + d as char else '9' }

  function DigitValue(ch: char): nat { if IsDigit(ch) then (ch - '0') as nat else 0 }

  /** A natural number in decimal. */
  function Print(n: nat): string {
    if n < 10 then [DigitOf(n)] else Print(n / 10) + [DigitOf(n % 10)]
  }

  function PrintInt(x: int): string { if x < 0 then "-" + Print(-x) else Print(x) }

  /** The number that the digits of t make behind a number acc. */
  function Value(acc: nat, t: string): nat
    decreases |t|
  {
    if t == "" then acc else Value(10 * acc + DigitValue(t[0]), t[1..])
  }

  predicate AllDigits(t: string) { forall i :: 0 <= i < |t| ==> IsDigit(t[i]) }

  lemma {:induction false} ValueSnoc(acc: nat, t: string, ch: char)
    ensures Value(acc, t + [ch]) == 10 * Value(acc, t) + DigitValue(ch)
    decreases |t|
  {
    if t == "" {
      assert (t + [ch])[1..] == "";
    } else {
      assert (t + [ch])[0] == t[0] && (t + [ch])[1..] == t[1..] + [ch];
      ValueSnoc(10 * acc + DigitValue(t[0]), t[1..], ch);
    }
  }

  lemma {:induction false} PrintDigits(n: nat)
    ensures Print(n) != "" && AllDigits(Print(n)) && Value(0, Print(n)) == n
  {
    if n < 10 {
      ValueSnoc(0, "", DigitOf(n));
      assert "" + [DigitOf(n)] == [DigitOf(n)];
    } else {
      PrintDigits(n / 10);
      ValueSnoc(0, Print(n / 10), DigitOf(n % 10));
    }
  }

  /** A number and the index behind it. */
  datatype Scan = Scan(value: nat, at: nat)

  /** Digits from index at on, behind a number acc. */
  function ScanDigits(s: string, at: nat, acc: nat): Scan
    decreases |s| - at
  {
    if at < |s| && IsDigit(s[at]) then ScanDigits(s, at + 1, 10 * acc + DigitValue(s[at])) else Scan(acc, at)
  }

  /** s goes on with t at index at. */
  predicate GoesOn(s: string, at: nat, t: string) { at <= |s| && s[at..] == t }

  predicate NoDigitFirst(t: string) { t == "" || !IsDigit(t[0]) }

  lemma GoesOnStep(s: string, at: nat, t: string)
    requires GoesOn(s, at, t) && t != ""
    ensures at < |s| && s[at] == t[0] && GoesOn(s, at + 1, t[1..])
  {
  }

  lemma {:induction false} ScanAll(s: string, at: nat, acc: nat, t: string, rest: string)
    requires GoesOn(s, at, t + rest) && AllDigits(t) && NoDigitFirst(rest)
    ensures ScanDigits(s, at, acc) == Scan(Value(acc, t), at + |t|) && GoesOn(s, at + |t|, rest)
    decreases |t|
  {
    if t == "" {
      assert t + rest == rest;
      if rest != "" { GoesOnStep(s, at, rest); }
    } else {
      GoesOnStep(s, at, t + rest);
      assert (t + rest)[1..] == t[1..] + rest;
      ScanAll(s, at + 1, 10 * acc + DigitValue(t[0]), t[1..], rest);
    }
  }

  /** Scanning a printed number stops behind it. */
  lemma {:induction false} ScanPrinted(s: string, at: nat, n: nat, rest: string)
    requires GoesOn(s, at, Print(n) + rest) && NoDigitFirst(rest)
    ensures ScanDigits(s, at, 0) == Scan(n, at + |Print(n)|) && GoesOn(s, at + |Print(n)|, rest)
    ensures at < |s| && IsDigit(s[at])
  {
    PrintDigits(n);
    ScanAll(s, at, 0, Print(n), rest);
    GoesOnStep(s, at, Print(n) + rest);
  }
}
