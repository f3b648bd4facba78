/** Shared vocabulary of the model: optional values and errors, bytes, and the
    small text operations the JavaScript source takes from `String(n)`,
    `padStart`, `startsWith` and `split`. */
module Base {

  /** `undefined`/`null` versus a present value. Usable with `:-`. */
  datatype Option<+T> = None | Some(value: T) {
    predicate IsFailure() { None? }

    function PropagateFailure<U>(): Option<U>
      requires None?
    {
      None
    }

    function Extract(): T
      requires Some?
    {
      value
    }

    function GetOr(default: T): T {
      if Some? then value else default
    }
  }

  /** Why an operation threw or rejected. */
  datatype Error =
    | KeyLengthInvalid      // createCipheriv/createDecipheriv refuse a key that is not 32 bytes
    | DecryptionFailed      // short blob, tag mismatch or wrong key
    | MalformedJson         // JSON.parse threw
    | BufferFromRejected    // Buffer.from threw on the revived `data` value
    | TransportFailed       // a call into the chat socket rejected

  /** A value or the error an operation threw. Usable with `:-`. */
  datatype Result<+T> = Ok(value: T) | Err(error: Error) {
    predicate IsFailure() { Err? }

    function PropagateFailure<U>(): Result<U>
      requires Err?
    {
      Err(error)
    }

    function Extract(): T
      requires Ok?
    {
      value
    }
  }

  type byte = x: int | 0 <= x < 256
  type Bytes = seq<byte>

  predicate IsDigit(c: char) {
    '0' <= c <= '9'
  }

  predicate AllDigits(s: string) {
    forall i :: 0 <= i < |s| ==> IsDigit(s[i])
  }

  function DigitChar(d: int): (c: char)
    requires 0 <= d < 10
    ensures IsDigit(c) && c as int - '0' as int == d
  {
    (d + '0' as int) as char
  }

  /** Decimal text of a natural number, as `String(n)` writes it. */
  function NatToString(n: nat): (s: string)
    ensures |s| >= 1 && AllDigits(s)
    ensures n >= 10 ==> s[0] != '0'
  {
    if n < 10 then [DigitChar(n)] else NatToString(n / 10) + [DigitChar(n % 10)]
  }

  /** Decimal text of an integer, with a leading '-' for negatives. */
  function IntToString(n: int): (s: string)
    ensures n >= 0 ==> s == NatToString(n)
    ensures n < 0 ==> s == "-" + NatToString(-n)
  {
    if n < 0 then "-" + NatToString(-n) else NatToString(n)
  }

  /** The number a run of decimal digits denotes; leading zeros are allowed. */
  function DecimalValue(s: string): nat
    requires AllDigits(s)
  {
    if s == [] then 0
    else DecimalValue(s[..|s| - 1]) * 10 + (s[|s| - 1] as int - '0' as int)
  }

  /** Reading back the text `String(n)` wrote gives n. */
  lemma {:induction false} DecimalRoundTrip(n: nat)
    ensures DecimalValue(NatToString(n)) == n
  {
    if n >= 10 {
      var s := NatToString(n);
      assert s[..|s| - 1] == NatToString(n / 10);
      DecimalRoundTrip(n / 10);
    }
  }

  /** `String(n).padStart(2, "0")` for the text of a number. */
  function Pad2(s: string): (r: string)
    ensures |r| >= 2 && |r| >= |s|
    ensures |s| >= 2 ==> r == s
    ensures |s| < 2 ==> r[|r| - |s|..] == s && forall i :: 0 <= i < |r| - |s| ==> r[i] == '0'
  {
    if |s| == 0 then "00" else if |s| == 1 then "0" + s else s
  }

  /** A leading '0' does not change the number a digit string denotes. */
  lemma {:induction false} LeadingZero(s: string)
    requires AllDigits(s)
    ensures AllDigits("0" + s) && DecimalValue("0" + s) == DecimalValue(s)
  {
    if s != [] {
      assert ("0" + s)[..|"0" + s| - 1] == "0" + s[..|s| - 1];
      LeadingZero(s[..|s| - 1]);
    }
  }

  /** Padding the decimal text of n to two characters keeps it readable as n. */
  lemma Pad2Value(n: nat)
    ensures AllDigits(Pad2(NatToString(n))) && DecimalValue(Pad2(NatToString(n))) == n
  {
    var s := NatToString(n);
    DecimalRoundTrip(n);
    if |s| == 1 {
      LeadingZero(s);
    }
  }

  predicate StartsWith(s: string, prefix: string) {
    |prefix| <= |s| && s[..|prefix|] == prefix
  }

  /** `s.split(sep)` for a one-character separator: the pieces between
      occurrences of `sep`, always at least one. */
  function Split(s: string, sep: char): (parts: seq<string>)
    ensures |parts| >= 1
    ensures forall i, j :: 0 <= i < |parts| && 0 <= j < |parts[i]| ==> parts[i][j] != sep
  {
    if |s| == 0 then [""]
    else if s[0] == sep then [""] + Split(s[1..], sep)
    else
      var rest := Split(s[1..], sep);
      [[s[0]] + rest[0]] + rest[1..]
  }

  /** `parts.join(sep)`. */
  function Join(parts: seq<string>, sep: char): string
    requires |parts| >= 1
  {
    if |parts| == 1 then parts[0] else parts[0] + [sep] + Join(parts[1..], sep)
  }

  /** Joining the pieces of a split restores the text. */
  lemma {:induction false} SplitJoin(s: string, sep: char)
    ensures Join(Split(s, sep), sep) == s
  {
    if |s| > 0 {
      SplitJoin(s[1..], sep);
      var rest := Split(s[1..], sep);
      if s[0] != sep {
        if |rest| == 1 {
          assert Split(s, sep) == [[s[0]] + rest[0]];
        } else {
          assert Split(s, sep)[1..] == rest[1..];
        }
      }
    }
  }

  /** Text without the separator is one piece. */
  lemma {:induction false} SplitNoSep(a: string, sep: char)
    requires sep !in a
    ensures Split(a, sep) == [a]
  {
    if |a| > 0 {
      assert sep !in a[1..];
      SplitNoSep(a[1..], sep);
      assert a[0] != sep;
      assert [a[0]] + a[1..] == a;
    }
  }

  /** Splitting `a + sep + b`, where `a` has no separator, yields `a` and then
      the pieces of `b`. */
  lemma {:induction false} SplitAfter(a: string, sep: char, b: string)
    requires sep !in a
    ensures Split(a + [sep] + b, sep) == [a] + Split(b, sep)
  {
    if |a| == 0 {
      assert a + [sep] + b == [sep] + b;
      assert ([sep] + b)[1..] == b;
    } else {
      assert sep !in a[1..];
      SplitAfter(a[1..], sep, b);
      assert (a + [sep] + b)[1..] == a[1..] + [sep] + b;
      assert [a[0]] + a[1..] == a;
    }
  }

  /** Splitting the join of separator-free pieces gives the pieces back. */
  lemma {:induction false} JoinSplit(parts: seq<string>, sep: char)
    requires |parts| >= 1
    requires forall i :: 0 <= i < |parts| ==> sep !in parts[i]
    ensures Split(Join(parts, sep), sep) == parts
  {
    if |parts| == 1 {
      SplitNoSep(parts[0], sep);
    } else {
      JoinSplit(parts[1..], sep);
      SplitAfter(parts[0], sep, Join(parts[1..], sep));
      assert parts == [parts[0]] + parts[1..];
    }
  }

  /** `s.split(sep)[0]`: the text before the first separator. */
  function Before(s: string, sep: char): (r: string)
    ensures sep !in r
    ensures StartsWith(s, r)
  {
    SplitFirstIsPrefix(s, sep);
    Split(s, sep)[0]
  }

  lemma {:induction false} SplitFirstIsPrefix(s: string, sep: char)
    ensures StartsWith(s, Split(s, sep)[0])
  {
    if |s| > 0 && s[0] != sep {
      SplitFirstIsPrefix(s[1..], sep);
    }
  }
}
