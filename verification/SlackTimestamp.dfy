/** Message timestamps: ten digits, a dot, six digits, compared as strings
    (scripts/private-slack-discovery.py:24, 49-51, 261-262). */
module SlackTimestamp {
  import opened SlackText

  predicate IsTs(s: string) {
    |s| == 17 && forall i :: 0 <= i < 17 ==> if i == 10 then s[i] == '.' else IsDigit(s[i])
  }

  /** Python's `<=` on strings. */
  predicate LexLe(a: string, b: string) {
    if a == "" then true
    else if b == "" then false
    else if a[0] == b[0] then LexLe(a[1..], b[1..])
    else a[0] < b[0]
  }

  ghost function Pow10(n: nat): nat {
    if n == 0 then 1 else Weigh(10, Pow10(n - 1))
  }

  ghost function Digits(s: string): nat {
    if s == "" then 0 else (if s[0] == '.' then 0 else 1) + Digits(s[1..])
  }

  /** `digit * weight`, as a sum. */
  ghost function Weigh(digit: int, weight: nat): nat {
    if digit <= 0 then 0 else weight + Weigh(digit - 1, weight)
  }

  lemma {:induction false} WeighOrder(x: int, y: int, weight: nat)
    requires 0 <= x < y
    ensures Weigh(x, weight) + weight <= Weigh(y, weight)
  {
    if x < y - 1 {
      WeighOrder(x, y - 1, weight);
    }
  }

  /** The number the digits spell, dots skipped: for a timestamp, microseconds. */
  ghost function Number(s: string): int {
    if s == "" then 0
    else if s[0] == '.' then Number(s[1..])
    else Weigh(s[0] as int - '0' as int, Pow10(Digits(s[1..]))) + Number(s[1..])
  }

  ghost predicate SameShape(a: string, b: string) {
    && |a| == |b|
    && forall i :: 0 <= i < |a| ==> if a[i] == '.' then b[i] == '.' else IsDigit(a[i]) && IsDigit(b[i])
  }

  lemma {:induction false} NumberBound(s: string)
    requires forall c :: c in s ==> IsDigit(c) || c == '.'
    ensures 0 <= Number(s) < Pow10(Digits(s))
  {
    hide Weigh;
    if s != "" {
      NumberBound(s[1..]);
      if s[0] != '.' {
        assert IsDigit(s[0]);
        WeighOrder(s[0] as int - '0' as int, 10, Pow10(Digits(s[1..])));
      }
    }
  }

  /** On equal shapes the string order is the numeric order. */
  lemma {:induction false} StringOrderIsNumeric(a: string, b: string)
    requires SameShape(a, b)
    ensures LexLe(a, b) <==> Number(a) <= Number(b)
  {
    hide Weigh, Pow10, Digits;
    if a != "" {
      assert forall i :: 0 <= i < |a| - 1 ==> a[1..][i] == a[i+1] && b[1..][i] == b[i+1];
      StringOrderIsNumeric(a[1..], b[1..]);
      SameDigits(a[1..], b[1..]);
      NumberBound(a[1..]);
      NumberBound(b[1..]);
      if a[0] != b[0] {
        var p := Pow10(Digits(a[1..]));
        var x, y := a[0] as int - '0' as int, b[0] as int - '0' as int;
        if x < y { WeighOrder(x, y, p); } else { WeighOrder(y, x, p); }
      }
    }
  }

  lemma {:induction false} SameDigits(a: string, b: string)
    requires SameShape(a, b)
    ensures Digits(a) == Digits(b)
  {
    if a != "" {
      assert forall i :: 0 <= i < |a| - 1 ==> a[1..][i] == a[i+1] && b[1..][i] == b[i+1];
      SameDigits(a[1..], b[1..]);
    }
  }

  /** The window test on strings is the window test on time. */
  lemma WindowIsNumeric(oldest: string, ts: string, latest: string)
    requires IsTs(oldest) && IsTs(ts) && IsTs(latest)
    ensures LexLe(oldest, ts) && LexLe(ts, latest) <==> Number(oldest) <= Number(ts) <= Number(latest)
    ensures LexLe(latest, oldest) <==> Number(latest) <= Number(oldest)
  {
    StringOrderIsNumeric(oldest, ts);
    StringOrderIsNumeric(ts, latest);
    StringOrderIsNumeric(latest, oldest);
  }
}
