/** The string operations the program takes from its standard library, and the laws
    that make printing and parsing inverse. */
module Text {
  import opened Wrappers

  // ----- searching -----

  predicate StartsWith(s: string, prefix: string) {
    prefix <= s
  }

  predicate OccursAt(s: string, sub: string, i: int) {
    0 <= i <= |s| - |sub| && s[i..i + |sub|] == sub
  }

  predicate Contains(s: string, sub: string) {
    exists i :: 0 <= i <= |s| - |sub| && OccursAt(s, sub, i)
  }

  /** `sub` occurs in `s` when `s` is something, `sub` and something more. */
  lemma ContainsIff(s: string, sub: string)
    ensures Contains(s, sub) <==> exists before, after :: s == before + sub + after
  {
    if Contains(s, sub) {
      var i :| 0 <= i <= |s| - |sub| && OccursAt(s, sub, i);
      assert s == s[..i] + sub + s[i + |sub|..];
    }
    if before, after :| s == before + sub + after {
      assert OccursAt(s, sub, |before|);
    }
  }

  function StripPrefix(s: string, prefix: string): Option<string> {
    if prefix <= s then Some(s[|prefix|..]) else None
  }

  // ----- splitting and joining -----

  /** The text before and after the first `c`, if there is one. */
  function SplitOnce(s: string, c: char): Option<(string, string)> {
    if s == [] then None
    else if s[0] == c then Some(([], s[1..]))
    else match SplitOnce(s[1..], c)
      case None => None
      case Some((before, after)) => Some(([s[0]] + before, after))
  }

  /** The pieces of `s` between occurrences of `c`; always at least one. */
  function Split(s: string, c: char): (pieces: seq<string>)
    ensures |pieces| >= 1
  {
    if s == [] then [[]]
    else
      var rest := Split(s[1..], c);
      if s[0] == c then [[]] + rest
      else [[s[0]] + rest[0]] + rest[1..]
  }

  function Join(pieces: seq<string>, c: char): string {
    if pieces == [] then []
    else if |pieces| == 1 then pieces[0]
    else pieces[0] + [c] + Join(pieces[1..], c)
  }

  lemma {:induction false} SplitOnceOfConcat(before: string, c: char, after: string)
    requires c !in before
    ensures SplitOnce(before + [c] + after, c) == Some((before, after))
  {
    var s := before + [c] + after;
    if before == [] {
      assert s[1..] == after;
    } else {
      assert s[1..] == before[1..] + [c] + after;
      SplitOnceOfConcat(before[1..], c, after);
      assert [s[0]] + before[1..] == before;
    }
  }

  lemma {:induction false} NothingToSplitOn(s: string, c: char)
    ensures SplitOnce(s, c) == None <==> c !in s
    ensures SplitOnce(s, c).Some? ==>
      var (before, after) := SplitOnce(s, c).value; c !in before && s == before + [c] + after
  {
    if s != [] && s[0] != c {
      NothingToSplitOn(s[1..], c);
      assert s == [s[0]] + s[1..];
    } else if s != [] {
      assert s == [] + [c] + s[1..];
    }
  }

  lemma {:induction false} SplitWithout(s: string, c: char)
    requires c !in s
    ensures Split(s, c) == [s]
  {
    if s != [] {
      SplitWithout(s[1..], c);
      assert [s[0]] + s[1..] == s;
    }
  }

  lemma {:induction false} SplitOfConcat(before: string, c: char, after: string)
    requires c !in before
    ensures Split(before + [c] + after, c) == [before] + Split(after, c)
  {
    var s := before + [c] + after;
    if before == [] {
      assert s[1..] == after;
    } else {
      assert s[1..] == before[1..] + [c] + after;
      SplitOfConcat(before[1..], c, after);
      var rest := Split(s[1..], c);
      assert rest[0] == before[1..] && rest[1..] == Split(after, c);
      assert [s[0]] + before[1..] == before;
    }
  }

  lemma {:induction false} SplitOfJoin(pieces: seq<string>, c: char)
    requires pieces != [] && forall p :: p in pieces ==> c !in p
    ensures Split(Join(pieces, c), c) == pieces
  {
    if |pieces| == 1 {
      SplitWithout(pieces[0], c);
    } else {
      SplitOfJoin(pieces[1..], c);
      SplitOfConcat(pieces[0], c, Join(pieces[1..], c));
    }
  }

  // ----- trimming -----

  /** Unicode White_Space. */
  predicate IsSpace(c: char) {
    || '\U{0009}' <= c <= '\U{000D}' || c == ' ' || c == '\U{0085}' || c == '\U{00A0}' || c == '\U{1680}'
    || '\U{2000}' <= c <= '\U{200A}' || c == '\U{2028}' || c == '\U{2029}' || c == '\U{202F}' || c == '\U{205F}'
    || c == '\U{3000}'
  }

  function TrimStart(s: string): string {
    if s != [] && IsSpace(s[0]) then TrimStart(s[1..]) else s
  }

  function TrimEnd(s: string): string {
    if s != [] && IsSpace(s[|s| - 1]) then TrimEnd(s[..|s| - 1]) else s
  }

  function Trim(s: string): string {
    TrimEnd(TrimStart(s))
  }

  /** Nothing for `Trim` to remove. */
  predicate Trimmed(s: string) {
    s != [] ==> !IsSpace(s[0]) && !IsSpace(s[|s| - 1])
  }

  predicate Blank(s: string) {
    forall c :: c in s ==> IsSpace(c)
  }

  lemma {:induction false} TrimStartTakesBlanks(s: string) returns (lead: string)
    ensures Blank(lead) && s == lead + TrimStart(s) && (TrimStart(s) != [] ==> !IsSpace(TrimStart(s)[0]))
  {
    if s != [] && IsSpace(s[0]) {
      var more := TrimStartTakesBlanks(s[1..]);
      lead := [s[0]] + more;
      assert s == [s[0]] + s[1..];
    } else {
      lead := [];
    }
  }

  lemma {:induction false} TrimEndTakesBlanks(s: string) returns (trail: string)
    ensures Blank(trail) && s == TrimEnd(s) + trail && (TrimEnd(s) != [] ==> !IsSpace(TrimEnd(s)[|TrimEnd(s)| - 1]))
  {
    if s != [] && IsSpace(s[|s| - 1]) {
      var more := TrimEndTakesBlanks(s[..|s| - 1]);
      trail := more + [s[|s| - 1]];
      assert s == s[..|s| - 1] + [s[|s| - 1]];
    } else {
      trail := [];
    }
  }

  /** Trimming takes blanks off both ends, and all there are. */
  lemma TrimTakesBlanks(s: string) returns (lead: string, trail: string)
    ensures Blank(lead) && Blank(trail) && s == lead + Trim(s) + trail && Trimmed(Trim(s))
  {
    lead := TrimStartTakesBlanks(s);
    trail := TrimEndTakesBlanks(TrimStart(s));
  }

  lemma BlankIff(s: string)
    ensures Trim(s) == "" <==> Blank(s)
  {
    var lead, trail := TrimTakesBlanks(s);
    hide Trim;
    if Trim(s) != "" {
      assert s[|lead|] == Trim(s)[0];
    }
  }

  lemma TrimOfTrimmed(s: string)
    requires Trimmed(s)
    ensures Trim(s) == s
  {
  }

  lemma {:induction false} TrimStartShortens(s: string)
    ensures |TrimStart(s)| <= |s|
  {
    if s != [] && IsSpace(s[0]) {
      TrimStartShortens(s[1..]);
    }
  }

  lemma {:induction false} TrimEndShortens(s: string)
    ensures |TrimEnd(s)| <= |s|
  {
    if s != [] && IsSpace(s[|s| - 1]) {
      TrimEndShortens(s[..|s| - 1]);
    }
  }

  lemma TrimKeepsIffTrimmed(s: string)
    ensures Trim(s) == s <==> Trimmed(s)
  {
    if s != [] && IsSpace(s[0]) {
      TrimStartShortens(s[1..]);
      TrimEndShortens(TrimStart(s));
    } else if s != [] && IsSpace(s[|s| - 1]) {
      TrimEndShortens(s[..|s| - 1]);
    }
  }

  function TrimStartChar(s: string, c: char): (r: string)
    ensures |r| <= |s|
    ensures r != [] ==> r[|r| - 1] == s[|s| - 1]
    ensures s != [] && s[|s| - 1] != c ==> r != []
  {
    if s != [] && s[0] == c then TrimStartChar(s[1..], c) else s
  }

  function TrimEndChar(s: string, c: char): (r: string)
    ensures |r| <= |s|
  {
    if s != [] && s[|s| - 1] == c then TrimEndChar(s[..|s| - 1], c) else s
  }

  function Repeat(s: string, n: nat): string {
    if n == 0 then "" else s + Repeat(s, n - 1)
  }

  lemma {:induction false} RepeatSnoc(c: char, n: nat)
    ensures Repeat([c], n + 1) == Repeat([c], n) + [c]
  {
    if n > 0 {
      RepeatSnoc(c, n - 1);
    } else {
      assert Repeat([c], 1) == [c] + Repeat([c], 0);
    }
  }

  lemma {:induction false} TrimEndCharTakes(s: string, c: char) returns (n: nat)
    ensures s == TrimEndChar(s, c) + Repeat([c], n)
    ensures TrimEndChar(s, c) != [] ==> TrimEndChar(s, c)[|TrimEndChar(s, c)| - 1] != c
  {
    if s != [] && s[|s| - 1] == c {
      var m := TrimEndCharTakes(s[..|s| - 1], c);
      n := m + 1;
      RepeatSnoc(c, m);
      assert s == s[..|s| - 1] + [c];
    } else {
      n := 0;
    }
  }

  // ----- decimal numbers -----

  const I64_LIMIT := 0x8000_0000_0000_0000

  predicate IsDigit(c: char) {
    '0' <= c <= '9'
  }

  predicate AllDigits(s: string) {
    forall i :: 0 <= i < |s| ==> IsDigit(s[i])
  }

  function DigitValue(c: char): nat
    requires IsDigit(c)
  {
    c as int - '0' as int
  }

  function Value(s: string): nat
    requires AllDigits(s)
  {
    if s == [] then 0 else 10 * Value(s[..|s| - 1]) + DigitValue(s[|s| - 1])
  }

  function Decimal(n: nat): string {
    var last := ['0' + (n % 10) as char];
    if n < 10 then last else Decimal(n / 10) + last
  }

  lemma {:induction false} DecimalReads(n: nat)
    ensures Decimal(n) != [] && AllDigits(Decimal(n)) && Value(Decimal(n)) == n
  {
    var last := '0' + (n % 10) as char;
    assert IsDigit(last) && DigitValue(last) == n % 10;
    if n >= 10 {
      DecimalReads(n / 10);
      var front := Decimal(n / 10);
      assert Decimal(n)[..|front|] == front;
    } else {
      assert Decimal(n) == [last];
    }
  }

  /** Reading an unsigned number of at most `max`: digits, perhaps after a plus sign. */
  function ParseUnsigned(s: string, max: nat): Option<nat> {
    var digits := if s != [] && s[0] == '+' then s[1..] else s;
    if digits != [] && AllDigits(digits) && Value(digits) <= max then Some(Value(digits)) else None
  }

  lemma UnsignedIff(s: string, max: nat, n: nat)
    ensures ParseUnsigned(s, max) == Some(n)
            <==> n <= max
                 && exists digits :: digits != [] && AllDigits(digits) && Value(digits) == n
                                     && (s == digits || s == "+" + digits)
  {
    var digits := if s != [] && s[0] == '+' then s[1..] else s;
    assert s != [] && s[0] == '+' ==> s == "+" + s[1..];
    if given :| given != [] && AllDigits(given) && Value(given) == n && (s == given || s == "+" + given) {
      assert IsDigit(given[0]);
      assert given == digits;
    }
  }

  /** Reading a signed number in -limit .. limit - 1. */
  function ParseSigned(s: string, limit: nat): Option<int> {
    if s != [] && s[0] == '-' then
      var digits := s[1..];
      if digits != [] && AllDigits(digits) && Value(digits) <= limit then Some(0 - Value(digits)) else None
    else if limit == 0 then None
    else match ParseUnsigned(s, limit - 1)
      case Some(n) => Some(n)
      case None => None
  }

  function SignedDecimal(n: int): string {
    if n < 0 then ['-'] + Decimal(-n) else Decimal(n)
  }

  lemma ParseOfDecimal(n: nat, max: nat)
    requires n <= max
    ensures ParseUnsigned(Decimal(n), max) == Some(n)
  {
    DecimalReads(n);
    assert Decimal(n)[0] != '+';
  }

  lemma ParseOfSignedDecimal(n: int, limit: nat)
    requires 0 - limit <= n < limit
    ensures ParseSigned(SignedDecimal(n), limit) == Some(n)
    ensures Trimmed(SignedDecimal(n))
  {
    hide Decimal, Value;
    if n < 0 {
      DecimalReads(-n);
      var digits := Decimal(-n);
      assert SignedDecimal(n) == ['-'] + digits;
      assert IsDigit(digits[|digits| - 1]);
    } else {
      DecimalReads(n);
      var digits := Decimal(n);
      assert IsDigit(digits[0]) && IsDigit(digits[|digits| - 1]);
      ParseOfDecimal(n, limit - 1);
    }
  }
}
