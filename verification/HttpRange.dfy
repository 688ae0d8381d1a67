/** Byte ranges on the wire: the Range header a resume sends and the Content-Range it must get
    back (sections 14.1.2 and 14.4 of RFC 9110). */
module HttpRange {
  import opened Wrappers

  const MAX_INT64 := 0x7fff_ffff_ffff_ffff

  predicate IsDigit(c: char) { '0' <= c <= '9' }

  predicate IsSpace(c: char) { c == ' ' || c == '\t' || c == '\n' || c == '\r' || c == '\U{0c}' }

  predicate AllDigits(s: string) { forall c <- s :: IsDigit(c) }

  function Digit(n: nat): char
    requires n < 10
  {
    ['0', '1', '2', '3', '4', '5', '6', '7', '8', '9'][n]
  }

  function DigitValue(c: char): nat
    requires IsDigit(c)
  {
    (c - '0') as nat
  }

  /** Decimal notation without leading zeros. */
  function Decimal(n: nat): string {
    if n < 10 then [Digit(n)] else Decimal(n / 10) + [Digit(n % 10)]
  }

  function Value(s: string): nat
    requires AllDigits(s)
  {
    if s == [] then 0 else Value(s[..|s|-1]) * 10 + DigitValue(s[|s|-1])
  }

  /** Integer parsing fails on what does not fit 64 signed bits. */
  function ParseInt(s: string): Option<nat> {
    if s != [] && AllDigits(s) && Value(s) <= MAX_INT64 then Some(Value(s)) else None
  }

  lemma {:induction false} DecimalReadsBack(n: nat)
    ensures AllDigits(Decimal(n)) && Decimal(n) != [] && Value(Decimal(n)) == n
  {
    if n >= 10 {
      DecimalReadsBack(n / 10);
      assert Decimal(n)[..|Decimal(n)|-1] == Decimal(n / 10);
    } else {
      assert Decimal(n)[..0] == [];
    }
  }

  // ---------- scanning ----------

  /** Length of the longest run of digits at the front. */
  function DigitRun(s: string): (k: nat)
    ensures k <= |s| && AllDigits(s[..k]) && (k < |s| ==> !IsDigit(s[k]))
  {
    if s == [] || !IsDigit(s[0]) then 0
    else
      var k := 1 + DigitRun(s[1..]);
      assert s[..k] == [s[0]] + s[1..][..k-1];
      k
  }

  function SkipSpace(s: string): string {
    if s != [] && IsSpace(s[0]) then SkipSpace(s[1..]) else s
  }

  function Lower(c: char): char {
    if 'A' <= c <= 'Z' then c - 'A' + 'a' else c
  }

  predicate StartsWithBytes(s: string) {
    && |s| >= 5 && Lower(s[0]) == 'b' && Lower(s[1]) == 'y'
    && Lower(s[2]) == 't' && Lower(s[3]) == 'e' && Lower(s[4]) == 's'
  }

  /** A run of digits and what follows it. */
  function TakeNumber(s: string): Option<(string, string)> {
    var k := DigitRun(s);
    if k == 0 then None else Some((s[..k], s[k..]))
  }

  /** `bytes first-last/total`; an unknown total (`*`) is no answer to a resume. */
  function ParseContentRange(value: string): Option<(nat, nat, nat)> {
    var s := SkipSpace(value);
    if !StartsWithBytes(s) || |s| < 6 || !IsSpace(s[5]) then None
    else
      var first := TakeNumber(SkipSpace(s[5..]));
      if first.None? || first.value.1 == [] || first.value.1[0] != '-' then None
      else
        var last := TakeNumber(first.value.1[1..]);
        if last.None? then None
        else
          var slash := SkipSpace(last.value.1);
          if slash == [] || slash[0] != '/' then None
          else
            var total := TakeNumber(SkipSpace(slash[1..]));
            if total.None? || SkipSpace(total.value.1) != [] then None
            else Numbers(ParseInt(first.value.0), ParseInt(last.value.0), ParseInt(total.value.0))
  }

  function Numbers(a: Option<nat>, b: Option<nat>, c: Option<nat>): Option<(nat, nat, nat)> {
    if a.Some? && b.Some? && c.Some? then Some((a.value, b.value, c.value)) else None
  }

  /** What a range request asks of a resource of the given size. */
  function RangeAsked(header: string, size: nat): Option<(nat, nat)> {
    if |header| < 6 || !StartsWithBytes(header) || header[5] != '=' then None
    else
      var first := TakeNumber(header[6..]);
      if first.None? || first.value.1 == [] || first.value.1[0] != '-' then None
      else if first.value.1[1..] == [] then
        if size == 0 then None else Some((Value(first.value.0), size - 1))
      else
        var last := TakeNumber(first.value.1[1..]);
        if last.None? || last.value.1 != [] then None
        else Some((Value(first.value.0), Value(last.value.0)))
  }

  // ---------- what is written reads back ----------

  lemma {:induction false} DigitRunOf(d: string, rest: string)
    requires AllDigits(d) && (rest == [] || !IsDigit(rest[0]))
    ensures DigitRun(d + rest) == |d|
  {
    if d == [] {
      assert d + rest == rest;
    } else {
      assert (d + rest)[1..] == d[1..] + rest;
      DigitRunOf(d[1..], rest);
    }
  }

  lemma NumberReadsBack(n: nat, rest: string)
    requires rest == [] || !IsDigit(rest[0])
    ensures TakeNumber(Decimal(n) + rest) == Some((Decimal(n), rest))
  {
    DecimalReadsBack(n);
    DigitRunOf(Decimal(n), rest);
    assert (Decimal(n) + rest)[..|Decimal(n)|] == Decimal(n) && (Decimal(n) + rest)[|Decimal(n)|..] == rest;
  }

  lemma DecimalStart(n: nat)
    ensures Decimal(n) != [] && IsDigit(Decimal(n)[0])
  {
    DecimalReadsBack(n);
    assert Decimal(n)[0] in Decimal(n);
  }

  function ContentRange(first: nat, last: nat, total: nat): string {
    "bytes " + (Decimal(first) + ("-" + (Decimal(last) + ("/" + (Decimal(total) + "")))))
  }

  /** A Content-Range in its standard form is read as the numbers it was written from, as long
      as they fit 64 signed bits; otherwise it is refused. */
  lemma ContentRangeReadsBack(first: nat, last: nat, total: nat)
    ensures ParseContentRange(ContentRange(first, last, total))
            == if first <= MAX_INT64 && last <= MAX_INT64 && total <= MAX_INT64
               then Some((first, last, total)) else None
  {
    hide Decimal, Value, DigitRun, TakeNumber;
    var c := Decimal(total) + "";
    var b := Decimal(last) + ("/" + c);
    var a := Decimal(first) + ("-" + b);
    DecimalReadsBack(first); DecimalReadsBack(last); DecimalReadsBack(total);
    DecimalStart(first); DecimalStart(total);
    NumberReadsBack(first, "-" + b);
    NumberReadsBack(last, "/" + c);
    NumberReadsBack(total, "");
    var s := "bytes " + a;
    assert SkipSpace(s) == s;
    assert s[5..] == [' '] + a && (([' '] + a)[1..]) == a;
    assert SkipSpace(s[5..]) == a;
    assert ("-" + b)[1..] == b;
    assert ("/" + c)[1..] == c;
  }

  /** The Range header of a resume: open-ended when the whole resource was being sent. */
  function ResumeRange(open: bool, next: nat, last: nat): string {
    "bytes=" + (Decimal(next) + ("-" + (if open then "" else Decimal(last) + "")))
  }

  /** A server reads a resume's Range header as exactly the remainder. */
  lemma ResumeRangeAsksRemainder(open: bool, next: nat, last: nat, size: nat)
    requires size > 0 && (open ==> last == size - 1)
    ensures RangeAsked(ResumeRange(open, next, last), size) == Some((next, last))
  {
    hide Decimal, Value, DigitRun, TakeNumber;
    var tail := if open then "" else Decimal(last) + "";
    DecimalReadsBack(next); DecimalReadsBack(last);
    NumberReadsBack(next, "-" + tail);
    NumberReadsBack(last, "");
    var s := ResumeRange(open, next, last);
    assert s[6..] == Decimal(next) + ("-" + tail);
    assert ("-" + tail)[1..] == tail;
  }
}
