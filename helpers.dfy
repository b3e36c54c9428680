/** The string helpers of package `helpers`: the client identifier used by the
    access counter, and the decimal id parser used by the repositories. */
module Helpers {
  import opened Wrappers

  /** Go's `uint` on a 64-bit platform. */
  const UintLimit: nat := 0x1_0000_0000_0000_0000
  type Uint = n: nat | n < UintLimit

  // ---------------------------------------------------------------------------
  // strings.Split with a one-character separator, and its inverse strings.Join
  // ---------------------------------------------------------------------------

  /** The fields of `s` between occurrences of `sep`; never empty, like
      `strings.Split`, which returns `[""]` for the empty string. */
  function Split(s: string, sep: char): (fields: seq<string>)
    ensures |fields| >= 1
    ensures forall i :: 0 <= i < |fields| ==> sep !in fields[i]
    ensures |fields| == 1 <==> sep !in s
    decreases |s|
  {
    if s == [] then [[]]
    else
      var rest := Split(s[1..], sep);
      if s[0] == sep then [[]] + rest
      else [[s[0]] + rest[0]] + rest[1..]
  }

  function Join(fields: seq<string>, sep: char): string
    requires |fields| >= 1
  {
    if |fields| == 1 then fields[0] else fields[0] + [sep] + Join(fields[1..], sep)
  }

  /** Splitting loses nothing: joining the fields back gives the input. */
  lemma {:induction false} SplitJoin(s: string, sep: char)
    ensures Join(Split(s, sep), sep) == s
    decreases |s|
  {
    if s != [] {
      var rest := Split(s[1..], sep);
      SplitJoin(s[1..], sep);
      assert s == [s[0]] + s[1..];
      if s[0] != sep && |rest| > 1 {
        assert Join(rest, sep) == rest[0] + [sep] + Join(rest[1..], sep);
        assert ([[s[0]] + rest[0]] + rest[1..])[1..] == rest[1..];
      }
    }
  }

  /** The first field is the text before the first separator: a prefix of the
      input, followed there by the separator when there is one. */
  lemma {:induction false} SplitHead(s: string, sep: char)
    ensures Split(s, sep)[0] <= s
    ensures sep in s ==> |Split(s, sep)[0]| < |s| && s[|Split(s, sep)[0]|] == sep
    decreases |s|
  {
    if s != [] && s[0] != sep {
      SplitHead(s[1..], sep);
      assert s == [s[0]] + s[1..];
    }
  }

  // ---------------------------------------------------------------------------
  // GetClientIP (pkg/helpers/util.go)
  // ---------------------------------------------------------------------------

  /** The header value the client identifier is taken from: `X-Forwarded-For`,
      else `X-Real-IP`, else the socket address. */
  function Requester(forwardedFor: string, realIP: string, remoteAddr: string): string
  {
    if |forwardedFor| != 0 then forwardedFor
    else if |realIP| != 0 then realIP
    else remoteAddr
  }

  /** Keeps the first entry of a comma-separated proxy chain. */
  function FirstEntry(requester: string): (entry: string)
    ensures entry <= requester
    ensures ',' !in entry
    ensures ',' !in requester ==> entry == requester
    ensures ',' in requester ==> |entry| < |requester| && requester[|entry|] == ','
  {
    if ',' in requester then
      SplitHead(requester, ',');
      Split(requester, ',')[0]
    else requester
  }

  /** The client identifier recorded by the access counter: the first entry of
      the first non-empty source, untrimmed. */
  function GetClientIP(forwardedFor: string, realIP: string, remoteAddr: string): (ip: string)
    ensures ip <= Requester(forwardedFor, realIP, remoteAddr)
    ensures ',' !in ip
    ensures |forwardedFor| != 0 ==> ip == FirstEntry(forwardedFor)
    ensures |forwardedFor| == 0 && |realIP| != 0 ==> ip == FirstEntry(realIP)
    ensures |forwardedFor| == 0 && |realIP| == 0 ==> ip == FirstEntry(remoteAddr)
  {
    FirstEntry(Requester(forwardedFor, realIP, remoteAddr))
  }

  /** A non-empty `X-Forwarded-For` decides the result whatever the other two
      sources hold. */
  lemma ForwardedForDominates(forwardedFor: string, realIP1: string, remoteAddr1: string,
                              realIP2: string, remoteAddr2: string)
    requires |forwardedFor| != 0
    ensures GetClientIP(forwardedFor, realIP1, remoteAddr1) == GetClientIP(forwardedFor, realIP2, remoteAddr2)
  {
  }

  /** `X-Real-IP` is consulted only when `X-Forwarded-For` is empty, and the
      socket address only when both are. */
  lemma FallbackOrder(forwardedFor: string, realIP: string, remoteAddr: string)
    ensures Requester(forwardedFor, realIP, remoteAddr) == realIP ==> |forwardedFor| == 0 || forwardedFor == realIP
    ensures Requester(forwardedFor, realIP, remoteAddr) != remoteAddr ==> |forwardedFor| != 0 || |realIP| != 0
  {
  }

  /** Cutting at the first comma is idempotent, and the identifier survives
      being fed back in as the forwarded-for header. */
  lemma {:induction false} FirstEntryIdempotent(requester: string, realIP: string, remoteAddr: string)
    ensures FirstEntry(FirstEntry(requester)) == FirstEntry(requester)
    ensures |FirstEntry(requester)| != 0 ==> GetClientIP(FirstEntry(requester), realIP, remoteAddr) == FirstEntry(requester)
  {
  }

  // ---------------------------------------------------------------------------
  // ParseUint (pkg/helpers/util.go and its duplicate pkg/helpers/parseInt.go)
  // ---------------------------------------------------------------------------

  predicate IsDigit(c: char) { '0' <= c <= '9' }

  predicate AllDigits(s: string) { forall i :: 0 <= i < |s| ==> IsDigit(s[i]) }

  /** The number a string of decimal digits denotes, most significant first. */
  function DigitsValue(s: string): nat
    requires AllDigits(s)
  {
    if s == [] then 0 else 10 * DigitsValue(s[..|s| - 1]) + (s[|s| - 1] as int - '0' as int)
  }

  /** The decimal rendering of `n` (`fmt.Sprint` of a `uint`), denoting `n`. */
  function Decimal(n: nat): (s: string)
    ensures |s| >= 1 && AllDigits(s)
    ensures DigitsValue(s) == n
  {
    var last := ['0' + (n % 10) as char];
    if n < 10 then last
    else
      var s := Decimal(n / 10) + last;
      assert s[..|s| - 1] == Decimal(n / 10);
      s
  }

  /** The two `strconv` failures ParseUint can report. */
  datatype NumError = ErrSyntax | ErrRange

  /** The run of decimal digits the input starts with. */
  function LeadingDigits(s: string): (p: string)
    ensures p <= s && AllDigits(p)
    ensures |p| < |s| ==> !IsDigit(s[|p|])
    ensures AllDigits(s) ==> p == s
  {
    if s == [] || !IsDigit(s[0]) then []
    else
      var rest := LeadingDigits(s[1..]);
      assert s == [s[0]] + s[1..];
      [s[0]] + rest
  }

  /** `strconv.ParseUint(s, 10, 64)`: digits only (no sign, no prefix, no
      underscore in base 10), at least one, and a value below 2^64. The input
      is read from the left, so a digit run that already exceeds 2^64 - 1
      before the first non-digit is a range error, and any other bad input
      is a syntax error. */
  function ParseUint64(s: string): (r: Result<Uint, NumError>)
    ensures r.Success? <==> |s| >= 1 && AllDigits(s) && DigitsValue(s) < UintLimit
    ensures r.Success? ==> r.value == DigitsValue(s)
    ensures r.Failure? && s == [] ==> r.error == ErrSyntax
    ensures r.Failure? && s != [] ==> (r.error == ErrRange <==> DigitsValue(LeadingDigits(s)) >= UintLimit)
  {
    if s == [] then Failure(ErrSyntax)
    else
      var run := LeadingDigits(s);
      if DigitsValue(run) >= UintLimit then Failure(ErrRange)
      else if |run| < |s| then Failure(ErrSyntax)
      else
        assert run == s;
        Success(DigitsValue(s))
  }

  /** Go's `(uint, error)` pair. */
  datatype ParsedUint = ParsedUint(value: Uint, err: Option<NumError>)

  /** The helper: the parsed value with no error, or 0 with the parse error. */
  function ParseUint(id: string): (r: ParsedUint)
    ensures r.err.Some? ==> r.value == 0
    ensures r.err.None? <==> |id| >= 1 && AllDigits(id) && DigitsValue(id) < UintLimit
    ensures r.err.None? ==> r.value == DigitsValue(id)
  {
    match ParseUint64(id)
    case Success(v) => ParsedUint(v, None)
    case Failure(e) => ParsedUint(0, Some(e))
  }

  /** Parsing the decimal rendering of any 64-bit value gives that value back. */
  lemma ParseDecimal(n: Uint)
    ensures ParseUint(Decimal(n)) == ParsedUint(n, None)
  {
  }

  /** Values of 2^64 and above are refused as out of range, and read as 0. */
  lemma ParseRejectsOverflow(n: nat)
    requires n >= UintLimit
    ensures ParseUint(Decimal(n)) == ParsedUint(0, Some(ErrRange))
  {
  }

  /** A value of zero digits is zero. */
  lemma {:induction false} ZerosValue(z: string)
    requires forall i :: 0 <= i < |z| ==> z[i] == '0'
    ensures AllDigits(z) && DigitsValue(z) == 0
    decreases |z|
  {
    if z != [] {
      ZerosValue(z[..|z| - 1]);
    }
  }

  /** Leading zeros do not change the value of a digit string. */
  lemma {:induction false} ZerosThenDigits(z: string, s: string)
    requires forall i :: 0 <= i < |z| ==> z[i] == '0'
    requires AllDigits(s)
    ensures AllDigits(z + s) && DigitsValue(z + s) == DigitsValue(s)
    decreases |s|
  {
    if s == [] {
      ZerosValue(z);
      assert z + s == z;
    } else {
      ZerosThenDigits(z, s[..|s| - 1]);
      var t := z + s;
      assert t[..|t| - 1] == z + s[..|s| - 1];
    }
  }

  /** Only base 10 is read: leading zeros are decimal zeros, not an octal
      prefix, so they change neither the value nor the error. */
  lemma LeadingZerosIgnored(z: string, s: string)
    requires forall i :: 0 <= i < |z| ==> z[i] == '0'
    requires |s| >= 1 && AllDigits(s)
    ensures ParseUint(z + s) == ParseUint(s)
  {
    ZerosThenDigits(z, s);
  }

  /** Any character other than a decimal digit (a sign, an `x` prefix, an
      underscore, a space) makes the input a syntax error, read as 0, unless
      the digits before it already overflow. */
  lemma NonDigitIsSyntaxError(s: string, i: nat)
    requires i < |s| && !IsDigit(s[i])
    requires DigitsValue(LeadingDigits(s)) < UintLimit
    ensures ParseUint(s) == ParsedUint(0, Some(ErrSyntax))
  {
  }

  /** The digit run before a non-digit is read first: when it already
      overflows, the error is a range error. */
  lemma OverflowBeforeNonDigit(run: string, rest: string)
    requires |run| >= 1 && AllDigits(run) && DigitsValue(run) >= UintLimit
    requires |rest| >= 1 && !IsDigit(rest[0])
    ensures ParseUint(run + rest) == ParsedUint(0, Some(ErrRange))
  {
    LeadingDigitsOfConcat(run, rest);
  }

  lemma {:induction false} LeadingDigitsOfConcat(run: string, rest: string)
    requires AllDigits(run)
    requires |rest| >= 1 && !IsDigit(rest[0])
    ensures LeadingDigits(run + rest) == run
    decreases |run|
  {
    if run != [] {
      LeadingDigitsOfConcat(run[1..], rest);
      assert (run + rest)[1..] == run[1..] + rest;
    } else {
      assert run + rest == rest;
    }
  }
}
