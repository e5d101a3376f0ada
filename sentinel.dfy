/** The handshake line: the worker prints the port it listens on, and the host
    picks it out of the worker's standard output with
    `^\[Redouble.AspNet.Webpack.NodeHost:Listening on port (\d+)\]$`. */
module Sentinel {
  import opened Bytes
  import opened Wrappers

  /** The pattern up to the port number. Each `.` in it is the regular
      expression's wildcard, not a literal dot. */
  const Prefix: string := "[Redouble.AspNet.Webpack.NodeHost:Listening on port "

  /** One pattern character against one line character: `.` matches anything
      but a newline. */
  predicate PatternCharMatches(p: char, c: char) {
    if p == '.' then c != '\n' else c == p
  }

  predicate PrefixMatches(line: string)
    requires |line| >= |Prefix|
  {
    forall i :: 0 <= i < |Prefix| ==> PatternCharMatches(Prefix[i], line[i])
  }

  predicate IsDigit(c: char) {
    '0' <= c <= '9'
  }

  predicate AllDigits(s: string) {
    forall i :: 0 <= i < |s| ==> IsDigit(s[i])
  }

  /** The line without the one trailing newline that `$` may stand before. */
  function Content(line: string): (r: string)
    ensures r == line || r + "\n" == line
  {
    if |line| > 0 && line[|line| - 1] == '\n' then line[..|line| - 1] else line
  }

  /** The captured digits when the line matches the pattern. */
  function MatchPort(line: string): (r: Option<string>)
    ensures r.Some? <==>
      var t := Content(line);
      |t| >= |Prefix| + 2 && PrefixMatches(t) && t[|t| - 1] == ']' && AllDigits(t[|Prefix|..|t| - 1])
    ensures r.Some? ==> |r.value| > 0 && AllDigits(r.value) && Content(line)[|Prefix|..] == r.value + "]"
  {
    var t := Content(line);
    if |t| >= |Prefix| + 2 && PrefixMatches(t) && t[|t| - 1] == ']' && AllDigits(t[|Prefix|..|t| - 1]) then
      assert t[|Prefix|..] == t[|Prefix|..|t| - 1] + "]";
      Some(t[|Prefix|..|t| - 1])
    else None
  }

  /** The number written by a string of decimal digits. */
  function DecimalValue(s: string): (n: nat)
    requires AllDigits(s)
  {
    if s == [] then 0 else 10 * DecimalValue(s[..|s| - 1]) + (s[|s| - 1] as int - '0' as int)
  }

  /** `int.Parse` on a string of digits: an OverflowException past
      `int.MaxValue`. */
  function ParseInt32(digits: string): (r: Option<int>)
    requires AllDigits(digits)
    ensures r.Some? <==> DecimalValue(digits) <= MaxInt32
    ensures r.Some? ==> r.value == DecimalValue(digits)
  {
    var n := DecimalValue(digits);
    if n <= MaxInt32 then Some(n) else None
  }

  /** A number in decimal, as JavaScript prints it. */
  function Decimal(n: nat): (s: string)
    ensures |s| > 0 && AllDigits(s)
  {
    var d := (n % 10 + '0' as int) as char;
    if n < 10 then [d] else Decimal(n / 10) + [d]
  }

  /** Reading back a printed number gives the number. */
  lemma {:induction false} DecimalValueOfDecimal(n: nat)
    ensures DecimalValue(Decimal(n)) == n
  {
    var s := Decimal(n);
    if n >= 10 {
      assert s[..|s| - 1] == Decimal(n / 10);
      DecimalValueOfDecimal(n / 10);
    }
  }
}
