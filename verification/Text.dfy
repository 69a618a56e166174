/** The string operations the models share, over ASCII blanks, letters and digits. */
module Text {
  import opened Options

  /** What Python's str.strip and str.isspace take as blank, within ASCII. */
  predicate IsSpace(c: char) {
    c == ' ' || '\t' <= c <= '\r' || ('\U{1c}' <= c <= '\U{1f}')
  }

  predicate AllSpace(s: string) {
    forall c | c in s :: IsSpace(c)
  }

  // -- strip -----------------------------------------------------------------------------

  /** Neither end is blank. */
  predicate Trimmed(s: string) {
    s == "" || (!IsSpace(s[0]) && !IsSpace(s[|s| - 1]))
  }

  /** The first visible character at or after `i`, or |s|. */
  function VisibleFrom(s: string, i: nat): (r: nat)
    requires i <= |s|
    ensures i <= r <= |s|
    ensures r < |s| ==> !IsSpace(s[r])
    ensures forall j | i <= j < r :: IsSpace(s[j])
    decreases |s| - i
  {
    if i == |s| || !IsSpace(s[i]) then i else VisibleFrom(s, i + 1)
  }

  /** Just after the last visible character before `n`, or 0. */
  function VisibleTo(s: string, n: nat): (r: nat)
    requires n <= |s|
    ensures r <= n
    ensures r > 0 ==> !IsSpace(s[r - 1])
    ensures forall j | r <= j < n :: IsSpace(s[j])
  {
    if n == 0 || !IsSpace(s[n - 1]) then n else VisibleTo(s, n - 1)
  }

  function Strip(s: string): (r: string)
    ensures Trimmed(r)
  {
    var from, to := VisibleFrom(s, 0), VisibleTo(s, |s|);
    if from < to then s[from..to] else ""
  }

  lemma StripTrimmed(s: string)
    requires Trimmed(s)
    ensures Strip(s) == s
  {
    if s != "" { assert !IsSpace(s[0]) && !IsSpace(s[|s| - 1]); }
  }

  /** Stripping text that starts visibly only cuts its end. */
  lemma StripPrefix(s: string)
    requires s == "" || !IsSpace(s[0])
    ensures Strip(s) <= s
  {}

  lemma StripBlank(s: string)
    ensures Strip(s) == "" <==> AllSpace(s)
  {
    var from, to := VisibleFrom(s, 0), VisibleTo(s, |s|);
    if AllSpace(s) { assert forall i | 0 <= i < |s| :: s[i] in s; }
    else { assert from < |s|; assert from < to; }
  }

  // -- case ------------------------------------------------------------------------------

  function LowerChar(c: char): char {
    if 'A' <= c <= 'Z' then 'a' + (c - 'A') else c
  }

  function Lower(s: string): (r: string)
    ensures |r| == |s|
  {
    seq(|s|, i requires 0 <= i < |s| => LowerChar(s[i]))
  }

  lemma LowerAppend(a: string, b: string)
    ensures Lower(a + b) == Lower(a) + Lower(b)
  {}

  // -- decimal numbers ---------------------------------------------------------------------

  predicate IsDigit(c: char) { '0' <= c <= '9' }

  predicate AllDigits(s: string) { forall i | 0 <= i < |s| :: IsDigit(s[i]) }

  function DigitChar(d: nat): char
    requires d < 10
  {
    ['0', '1', '2', '3', '4', '5', '6', '7', '8', '9'][d]
  }

  function Decimal(n: nat): (s: string)
    ensures s != "" && AllDigits(s)
  {
    if n < 10 then [DigitChar(n)] else Decimal(n / 10) + [DigitChar(n % 10)]
  }

  function ParseDigits(s: string): nat
    requires AllDigits(s)
  {
    if s == "" then 0 else 10 * ParseDigits(s[..|s| - 1]) + (s[|s| - 1] - '0') as int
  }

  lemma {:induction false} ParseDecimal(n: nat)
    ensures ParseDigits(Decimal(n)) == n
  {
    var s := Decimal(n);
    if n < 10 {
      assert s[..0] == "";
    } else {
      ParseDecimal(n / 10);
      assert s[..|s| - 1] == Decimal(n / 10);
    }
  }

  lemma LowerDigits(s: string)
    requires AllDigits(s)
    ensures Lower(s) == s
  {}

  /** How many digits `s` starts with. */
  function DigitRun(s: string): (n: nat)
    ensures n <= |s| && AllDigits(s[..n])
    ensures n < |s| ==> !IsDigit(s[n])
  {
    if s == "" || !IsDigit(s[0]) then 0
    else
      var n := 1 + DigitRun(s[1..]);
      assert s[..n] == [s[0]] + s[1..][..n - 1];
      n
  }

  lemma DigitRunIs(digits: string, rest: string)
    requires AllDigits(digits) && (rest == "" || !IsDigit(rest[0]))
    ensures DigitRun(digits + rest) == |digits|
  {
    var n := DigitRun(digits + rest);
    assert forall j | 0 <= j < |digits| :: (digits + rest)[j] == digits[j];
    assert forall j | 0 <= j < n :: IsDigit((digits + rest)[..n][j]) && (digits + rest)[..n][j] == (digits + rest)[j];
    assert rest != "" ==> (digits + rest)[|digits|] == rest[0];
  }

  /** Python's int() on text without outer blanks: a sign, then digits that single
      underscores may separate; None where it raises. */
  function ParseInt(s: string): Option<int> {
    if s != "" && s[0] == '-' then
      match ParseGrouped(s[1..]) case Some(n) => Some(-n) case None => None
    else ParseGrouped(if s != "" && s[0] == '+' then s[1..] else s)
  }

  function ParseGrouped(s: string): Option<int> {
    if AllDigits(Ungrouped(s)) && s != "" && s[0] != '_' && s[|s| - 1] != '_' &&
       forall i | 0 < i < |s| :: !(s[i - 1] == '_' && s[i] == '_')
    then Some(ParseDigits(Ungrouped(s)) as int) else None
  }

  function Ungrouped(s: string): string {
    if s == "" then "" else Ungrouped(s[..|s| - 1]) + if s[|s| - 1] == '_' then "" else [s[|s| - 1]]
  }

  lemma {:induction false} UngroupedDigits(s: string)
    requires AllDigits(s)
    ensures Ungrouped(s) == s
  {
    if s != "" { UngroupedDigits(s[..|s| - 1]); }
  }

  /** Reading back a number written in decimal. */
  lemma ParseIntDecimal(n: nat)
    ensures ParseInt(Decimal(n)) == Some(n)
  {
    hide ParseDigits, Ungrouped, Decimal;
    var s := Decimal(n);
    assert IsDigit(s[0]) && IsDigit(s[|s| - 1]);
    UngroupedDigits(s);
    ParseDecimal(n);
  }
}
