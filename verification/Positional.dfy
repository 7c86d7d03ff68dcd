/** Positional arguments counted from one and from zero. */
module Positional {
  import opened Decimals

  /** The end of the run of digits that starts at `i`. */
  function DigitsEnd(s: string, i: nat): (j: nat)
    requires i <= |s|
    ensures i <= j <= |s|
    ensures AllDigits(s[i..j])
    ensures j < |s| ==> !IsDigit(s[j])
    decreases |s| - i
  {
    if i < |s| && IsDigit(s[i]) then
      var j := DigitsEnd(s, i + 1);
      assert s[i..j] == [s[i]] + s[i + 1..j];
      j
    else i
  }

  predicate DigitAt(s: string, i: nat) { i < |s| && IsDigit(s[i]) }

  /** `_reindex_positional_args`: every `$N` with N not starting with 0 becomes `$(N-1)`. */
  function Reindex(s: string): string
    decreases |s|
  {
    if s == "" then ""
    else if s[0] == '$' && DigitAt(s, 1) && s[1] != '0' then
      var j := DigitsEnd(s, 1);
      PrintParse(s[1..j]);
      "$" + Print(Parse(s[1..j]) - 1) + Reindex(s[j..])
    else [s[0]] + Reindex(s[1..])
  }

  /** Every `$N` becomes `$(N+1)`. */
  function ShiftUp(s: string): string
    decreases |s|
  {
    if s == "" then ""
    else if s[0] == '$' && DigitAt(s, 1) then
      var j := DigitsEnd(s, 1);
      "$" + Print(Parse(s[1..j]) + 1) + ShiftUp(s[j..])
    else [s[0]] + ShiftUp(s[1..])
  }

  predicate DollarZeroAt(s: string, i: nat) { i + 1 < |s| && s[i] == '$' && s[i + 1] == '0' }

  predicate HasDollarZero(s: string) { exists i: nat | i < |s| :: DollarZeroAt(s, i) }

  lemma FirstCharacterStays(s: string)
    ensures s == "" <==> Reindex(s) == ""
    ensures s != "" ==> Reindex(s)[0] == s[0]
  {
  }

  /** A text without `$` is left as it is, and so is a `$` that no digit from 1 to 9 follows. */
  lemma {:induction false} PlainTextStays(s: string, rest: string)
    requires '$' !in s
    ensures Reindex(s + rest) == s + Reindex(rest)
    decreases |s|
  {
    if s == "" {
      assert s + rest == rest;
    } else {
      assert (s + rest)[0] == s[0] && s[0] in s;
      assert (s + rest)[1..] == s[1..] + rest;
      PlainTextStays(s[1..], rest);
      assert s == [s[0]] + s[1..];
    }
  }

  lemma PlainCharacterStays(s: string)
    requires s != "" && !NumberFirst(s)
    ensures Reindex(s) == [s[0]] + Reindex(s[1..])
  {
  }

  lemma AnotherDollarStays(rest: string)
    requires rest == "" || !('1' <= rest[0] <= '9')
    ensures Reindex("$" + rest) == "$" + Reindex(rest)
  {
    var s := "$" + rest;
    assert s[1..] == rest;
    if rest != "" { assert s[1] == rest[0]; }
    assert !NumberFirst(s);
    PlainCharacterStays(s);
  }

  /** A placeholder `$N`, N at least one, becomes `$` and the number before N. */
  lemma APlaceholderMovesDown(n: nat, rest: string)
    requires n > 0 && (rest == "" || !('0' <= rest[0] <= '9'))
    ensures Reindex("$" + Print(n) + rest) == "$" + Print(n - 1) + Reindex(rest)
  {
    var s := "$" + Print(n) + rest;
    var k := 1 + |Print(n)|;
    assert s[1] == Print(n)[0] && s[1..k] == Print(n) && s[k..] == rest;
    assert DigitAt(s, k) == DigitAt(rest, 0);
    DigitsEndIs(s, 1, k);
    ParsePrint(n);
  }

  lemma {:induction false} DigitsEndIs(s: string, i: nat, k: nat)
    requires i <= k <= |s| && AllDigits(s[i..k]) && !DigitAt(s, k)
    ensures DigitsEnd(s, i) == k
    decreases k - i
  {
    if i < k {
      assert s[i] == s[i..k][0];
      assert s[i + 1..k] == s[i..k][1..];
      DigitsEndIs(s, i + 1, k);
    }
  }

  /** Shifting up reads a printed token as that token. */
  lemma ShiftUpToken(digits: string, rest: string)
    requires AllDigits(digits) && digits != "" && !DigitAt(rest, 0)
    ensures ShiftUp("$" + digits + rest) == "$" + Print(Parse(digits) + 1) + ShiftUp(rest)
  {
    var s := "$" + digits + rest;
    var k := 1 + |digits|;
    assert s[1] == digits[0];
    assert s[1..k] == digits;
    assert s[k..] == rest;
    assert DigitAt(s, k) == DigitAt(rest, 0);
    DigitsEndIs(s, 1, k);
  }

  lemma ShiftUpPlain(c: char, rest: string)
    requires c != '$' || !DigitAt(rest, 0)
    ensures ShiftUp([c] + rest) == [c] + ShiftUp(rest)
  {
    var s := [c] + rest;
    assert s[1..] == rest;
  }

  lemma TailHasDollarZero(s: string, k: nat)
    requires 0 < k <= |s| && forall i: nat :: i < k ==> !DollarZeroAt(s, i)
    ensures HasDollarZero(s) <==> HasDollarZero(s[k..])
  {
    if HasDollarZero(s) {
      var i: nat :| i < |s| && DollarZeroAt(s, i);
      assert DollarZeroAt(s[k..], i - k);
    }
    if HasDollarZero(s[k..]) {
      var i: nat :| i < |s[k..]| && DollarZeroAt(s[k..], i);
      assert DollarZeroAt(s, k + i);
    }
  }

  predicate NumberFirst(s: string) { s != "" && s[0] == '$' && DigitAt(s, 1) && s[1] != '0' }

  lemma NumberedTokenReturns(s: string)
    requires NumberFirst(s)
    ensures var j := DigitsEnd(s, 1); 1 < j && ShiftUp(Reindex(s)) == s[..j] + ShiftUp(Reindex(s[j..]))
  {
    var j := DigitsEnd(s, 1);
    var digits, rest := s[1..j], s[j..];
    assert digits[0] == s[1];
    PrintParse(digits);
    FirstCharacterStays(rest);
    var n := Parse(digits) - 1;
    assert DigitAt(rest, 0) == DigitAt(s, j);
    ShiftUpToken(Print(n), Reindex(rest));
    ParsePrint(n);
    assert s[..j] == "$" + digits;
  }

  lemma NumberedTokenHasNoDollarZero(s: string)
    requires NumberFirst(s)
    ensures HasDollarZero(s) <==> HasDollarZero(s[DigitsEnd(s, 1)..])
  {
    var j := DigitsEnd(s, 1);
    forall i: nat | i < j ensures !DollarZeroAt(s, i) {
      if 0 < i { assert IsDigit(s[1..j][i - 1]); }
    }
    TailHasDollarZero(s, j);
  }

  lemma ZeroTokenIsNotRestored(s: string)
    requires |s| > 1 && s[0] == '$' && s[1] == '0'
    ensures ShiftUp(Reindex(s)) != s
  {
    var out := Reindex(s);
    var rest := s[1..];
    assert out == "$" + Reindex(rest);
    FirstCharacterStays(rest);
    assert out[1] == '0';
    var j := DigitsEnd(out, 1);
    var shifted := ShiftUp(out);
    assert shifted == "$" + Print(Parse(out[1..j]) + 1) + ShiftUp(out[j..]);
    assert shifted[1] != '0';
  }

  lemma OtherCharacterReturns(s: string)
    requires s != "" && (s[0] != '$' || !DigitAt(s, 1))
    ensures ShiftUp(Reindex(s)) == s[..1] + ShiftUp(Reindex(s[1..]))
    ensures HasDollarZero(s) <==> HasDollarZero(s[1..])
  {
    FirstCharacterStays(s[1..]);
    assert DigitAt(s[1..], 0) == DigitAt(s, 1);
    ShiftUpPlain(s[0], Reindex(s[1..]));
    TailHasDollarZero(s, 1);
  }

  /** Shifting up undoes the reindexing of exactly the bodies that never say `$0`. */
  lemma {:induction false} RoundTripExactlyWithoutDollarZero(s: string)
    ensures ShiftUp(Reindex(s)) == s <==> !HasDollarZero(s)
    decreases |s|
  {
    if s == "" {
    } else if s[0] == '$' && DigitAt(s, 1) && s[1] == '0' {
      ZeroTokenIsNotRestored(s);
      assert DollarZeroAt(s, 0);
    } else {
      var j := 1;
      if NumberFirst(s) {
        j := DigitsEnd(s, 1);
        NumberedTokenReturns(s);
        NumberedTokenHasNoDollarZero(s);
      } else {
        OtherCharacterReturns(s);
      }
      RoundTripExactlyWithoutDollarZero(s[j..]);
      SameHead(s[..j], ShiftUp(Reindex(s[j..])), s[j..]);
      SplitAt(s, j);
    }
  }

  lemma SplitAt(s: string, j: nat)
    requires j <= |s|
    ensures s == s[..j] + s[j..]
  {
  }

  lemma SameHead(head: string, a: string, b: string)
    ensures head + a == head + b <==> a == b
  {
    if head + a == head + b {
      assert a == (head + a)[|head|..];
      assert b == (head + b)[|head|..];
    }
  }
}
