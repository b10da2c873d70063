/** The header of the flow file of traffic_gen/traffic_gen.py.

    An estimate of the number of flows is written first, with a blank and a line end behind it. When all flows
    are written, their number is written over it, from the first character on. The simulator reads a number,
    skips blanks and line ends, and goes on with the flows. */
module FlowFile {

  predicate IsDigit(c: char) {
    '0' <= c <= '9'
  }

  predicate AllDigits(s: string) {
    forall i :: 0 <= i < |s| ==> IsDigit(s[i])
  }

  function Digit(k: nat): char
    requires k < 10
  {
    '0' + k as char
  }

  // %d
  function Digits(n: nat): (s: string)
    ensures |s| > 0 && AllDigits(s)
  {
    if n < 10 then [Digit(n)] else Digits(n / 10) + [Digit(n % 10)]
  }

  // The number that digits stand for.
  function Number(s: string): nat
    requires AllDigits(s)
  {
    if s == "" then 0 else Number(s[..|s| - 1]) * 10 + (s[|s| - 1] as int - '0' as int)
  }

  lemma {:induction false} NumberOfDigits(n: nat)
    ensures Number(Digits(n)) == n
  {
    if n >= 10 {
      NumberOfDigits(n / 10);
      assert Digits(n)[..|Digits(n)| - 1] == Digits(n / 10);
    }
  }

  function Pow10(k: nat): (p: nat)
    ensures p > 0
  {
    if k == 0 then 1 else 10 * Pow10(k - 1)
  }

  lemma JoinOne(a: nat, p: nat, b: nat, d: nat)
    ensures (a * p + b) * 10 + d == a * (10 * p) + (b * 10 + d)
  {
  }

  lemma {:induction false} NumberJoins(s: string, t: string)
    requires AllDigits(s) && AllDigits(t)
    ensures AllDigits(s + t) && Number(s + t) == Number(s) * Pow10(|t|) + Number(t)
  {
    if t == "" {
      assert s + t == s;
    } else {
      var u, d := t[..|t| - 1], t[|t| - 1] as int - '0' as int;
      NumberJoins(s, u);
      assert (s + t)[..|s + t| - 1] == s + u;
      JoinOne(Number(s), Pow10(|u|), Number(u), d);
    }
  }

  // ----- The file -----

  // "%d \n" and the lines of the flows.
  function FirstText(estimate: nat, body: string): string {
    Digits(estimate) + (" \n" + body)
  }

  // seek(0) and write.
  function Overwrite(text: string, head: string): string {
    if |head| >= |text| then head else head + text[|head|..]
  }

  function LeadingDigits(s: string): (k: nat)
    ensures k <= |s| && AllDigits(s[..k]) && (k < |s| ==> !IsDigit(s[k]))
  {
    if s == "" || !IsDigit(s[0]) then 0
    else
      var k := LeadingDigits(s[1..]);
      assert forall i :: 0 < i < k + 1 ==> s[i] == s[1..][i - 1];
      k + 1
  }

  function SkipBlanks(s: string): (r: string)
    ensures |r| <= |s|
  {
    if s != "" && (s[0] == ' ' || s[0] == '\n') then SkipBlanks(s[1..]) else s
  }

  // The simulator reads a number, and then the flows after the blanks.
  function ReadFile(text: string): (nat, string) {
    var k := LeadingDigits(text);
    (Number(text[..k]), SkipBlanks(text[k..]))
  }

  // The lines of n flows: none, or text that starts with a host number.
  predicate IsBody(n: nat, body: string) {
    if n == 0 then body == "" else body != "" && IsDigit(body[0])
  }

  lemma ReadSplit(head: string, tail: string)
    requires AllDigits(head) && (tail != "" ==> !IsDigit(tail[0]))
    ensures ReadFile(head + tail) == (Number(head), SkipBlanks(tail))
  {
    assert (head + tail)[..|head|] == head && (head + tail)[|head|..] == tail;
  }

  lemma SkipBlankLine(n: nat, body: string)
    requires IsBody(n, body)
    ensures SkipBlanks("\n" + body) == body && SkipBlanks(" \n" + body) == body
  {
    assert SkipBlanks(body) == body;
    assert ("\n" + body)[1..] == body;
    assert (" \n" + body)[1..] == "\n" + body;
  }

  lemma OverwriteShort(s: string, t: string, head: string)
    requires |head| <= |s|
    ensures Overwrite(s + t, head) == head + s[|head|..] + t
  {
    if |head| == |s + t| {
      assert s[|head|..] == "" && t == "";
    }
    assert (s + t)[|head|..] == s[|head|..] + t;
  }

  lemma OverwriteLong(s: string, t: string, head: string)
    requires |head| >= |s|
    ensures Overwrite(s + t, head) == head + if |head| - |s| >= |t| then "" else t[|head| - |s|..]
  {
    if |head| < |s + t| {
      assert (s + t)[|head|..] == t[|head| - |s|..];
    }
  }

  // A number that is not longer than the estimate leaves the last digits of the estimate behind.
  lemma ReadShort(estimate: nat, n: nat, body: string)
    requires |Digits(n)| <= |Digits(estimate)| && IsBody(n, body)
    ensures var e := Digits(estimate);
            ReadFile(Overwrite(FirstText(estimate, body), Digits(n))) == (Number(Digits(n) + e[|Digits(n)|..]), body)
  {
    var e, d := Digits(estimate), Digits(n);
    OverwriteShort(e, " \n" + body, d);
    ReadSplit(d + e[|d|..], " \n" + body);
    SkipBlankLine(n, body);
  }

  // One more digit takes the place of the blank.
  lemma ReadOneLonger(estimate: nat, n: nat, body: string)
    requires |Digits(n)| == |Digits(estimate)| + 1 && IsBody(n, body)
    ensures ReadFile(Overwrite(FirstText(estimate, body), Digits(n))) == (n, body)
  {
    ReadOverBlank(Digits(estimate), Digits(n), n, body);
    NumberOfDigits(n);
  }

  lemma ReadOverBlank(e: string, d: string, n: nat, body: string)
    requires AllDigits(d) && |d| == |e| + 1 && IsBody(n, body)
    ensures ReadFile(Overwrite(e + (" \n" + body), d)) == (Number(d), body)
  {
    var tail := " \n" + body;
    OverwriteLong(e, tail, d);
    assert tail[1..] == "\n" + body;
    ReadSplit(d, "\n" + body);
    SkipBlankLine(n, body);
  }

  // A still longer one runs into the line end and the flows.
  lemma ReadLong(estimate: nat, n: nat, body: string)
    requires |Digits(n)| > |Digits(estimate)| + 1 && IsBody(n, body)
    ensures ReadFile(Overwrite(FirstText(estimate, body), Digits(n))).1 != body
  {
    var e, d := Digits(estimate), Digits(n);
    var tail := " \n" + body;
    var rest := if |d| - |e| >= |tail| then "" else tail[|d| - |e|..];
    OverwriteLong(e, tail, d);
    assert |rest| <= |body| && (|d| == |e| + 2 ==> rest == body);
  }

  lemma ShorterIsRight(a: nat, p: nat, b: nat)
    requires p >= 10
    ensures a * p + b == a <==> a == 0 && b == 0
  {
    if a > 0 {
      assert a * p >= a * 10;
    }
  }

  /** The simulator reads the number of flows and the flows exactly when the number has as many digits as the
      estimate, or one more, or is zero over an estimate that has only zeros behind its first digit. */
  lemma HeaderIsRightIff(estimate: nat, n: nat, body: string)
    requires IsBody(n, body)
    ensures ReadFile(Overwrite(FirstText(estimate, body), Digits(n))) == (n, body)
            <==> || |Digits(n)| == |Digits(estimate)|
                 || |Digits(n)| == |Digits(estimate)| + 1
                 || (|Digits(n)| < |Digits(estimate)| && n == 0 && Number(Digits(estimate)[|Digits(n)|..]) == 0)
  {
    var e, d := Digits(estimate), Digits(n);
    if |d| <= |e| {
      var left := e[|d|..];
      ReadShort(estimate, n, body);
      NumberJoins(d, left);
      NumberOfDigits(n);
      if left == "" {
        assert d + left == d;
      } else {
        assert Pow10(|left|) == 10 * Pow10(|left| - 1);
        ShorterIsRight(n, Pow10(|left|), Number(left));
      }
    } else if |d| == |e| + 1 {
      ReadOneLonger(estimate, n, body);
    } else {
      ReadLong(estimate, n, body);
    }
  }

  // 99 flows written over an estimate of 100 are read as 990; 100 over an estimate of 9 end in the flows.
  lemma WrongHeaders(body: string)
    requires body != "" && IsDigit(body[0])
    ensures ReadFile(Overwrite(FirstText(100, body), Digits(99))) == (990, body)
    ensures ReadFile(Overwrite(FirstText(9, body), Digits(100))).1 != body
  {
    assert Digits(9) == "9" && Digits(99) == "99" && Digits(10) == "10" && Digits(100) == "100";
    ReadShort(100, 99, body);
    assert "99" + "100"[2..] == "990";
    NumberOfDigits(990);
    assert Digits(990) == "990";
    ReadLong(9, 100, body);
  }
}
