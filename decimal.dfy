/**
 * The two library calls `main` relies on, as specification functions:
 * `str::split(' ')`, which cuts the program text into tokens, and
 * `str::parse::<u64>`, which reads a decimal literal; and `ToDecimal`, the
 * `{}` formatting `println!` applies to the printed value.
 */
module Decimal {
  import opened Wrappers
  import opened Words

  /**
   * `s.split(sep)`: the pieces between separators, empty ones included, so a
   * string with k separators gives k + 1 pieces and "" gives [""].
   */
  function Split(s: string, sep: char): (parts: seq<string>)
    ensures |parts| >= 1
    decreases |s|
  {
    if s == [] then [[]]
    else
      var rest := Split(s[1..], sep);
      if s[0] == sep then [[]] + rest
      else [[s[0]] + rest[0]] + rest[1..]
  }

  /** No piece of a split contains the separator. */
  lemma {:induction false} SplitPiecesLackSeparator(s: string, sep: char)
    ensures forall i :: 0 <= i < |Split(s, sep)| ==> sep !in Split(s, sep)[i]
    decreases |s|
  {
    if s != [] {
      SplitPiecesLackSeparator(s[1..], sep);
    }
  }

  /** The pieces put back together with `sep` between them. */
  function Join(parts: seq<string>, sep: char): string
    requires |parts| >= 1
  {
    if |parts| == 1 then parts[0]
    else Join(parts[..|parts| - 1], sep) + [sep] + parts[|parts| - 1]
  }

  /** Joining from the front: the first piece, a separator, then the rest joined. */
  lemma {:induction false} JoinCons(a: string, rest: seq<string>, sep: char)
    requires |rest| >= 1
    ensures Join([a] + rest, sep) == a + [sep] + Join(rest, sep)
    decreases |rest|
  {
    var parts := [a] + rest;
    if |rest| == 1 {
      assert parts[..1] == [a];
    } else {
      var init := rest[..|rest| - 1];
      assert parts[..|parts| - 1] == [a] + init;
      assert rest[..|rest| - 1] == init;
      JoinCons(a, init, sep);
    }
  }

  /** Splitting loses nothing: joining the pieces gives back the text. */
  lemma {:induction false} JoinSplit(s: string, sep: char)
    ensures Join(Split(s, sep), sep) == s
    decreases |s|
  {
    if s != [] {
      var rest := Split(s[1..], sep);
      JoinSplit(s[1..], sep);
      assert s == [s[0]] + s[1..];
      if s[0] == sep {
        JoinCons([], rest, sep);
      } else if |rest| == 1 {
        assert Split(s, sep) == [[s[0]] + rest[0]];
      } else {
        JoinAfterFirstChar(s[0], rest, sep);
      }
    }
  }

  /** Gluing a character onto the first piece puts it in front of the joined text. */
  lemma JoinAfterFirstChar(c: char, rest: seq<string>, sep: char)
    requires |rest| >= 2
    ensures Join([[c] + rest[0]] + rest[1..], sep) == [c] + Join(rest, sep)
  {
    JoinCons([c] + rest[0], rest[1..], sep);
    JoinCons(rest[0], rest[1..], sep);
    assert [rest[0]] + rest[1..] == rest;
  }

  /** Text without `sep` is one piece. */
  lemma {:induction false} SplitWithoutSeparator(s: string, sep: char)
    requires sep !in s
    ensures Split(s, sep) == [s]
    decreases |s|
  {
    if s != [] {
      SplitWithoutSeparator(s[1..], sep);
      assert [s[0]] + s[1..] == s;
    }
  }

  /** Splitting `a + [sep] + b` cuts at that separator when `a` has none. */
  lemma {:induction false} SplitAtFirst(a: string, sep: char, b: string)
    requires sep !in a
    ensures Split(a + [sep] + b, sep) == [a] + Split(b, sep)
    decreases |a|
  {
    if a == [] {
      assert [] + [sep] + b == [sep] + b;
      assert ([sep] + b)[1..] == b;
    } else {
      assert (a + [sep] + b)[1..] == a[1..] + [sep] + b;
      SplitAtFirst(a[1..], sep, b);
      assert [a[0]] + a[1..] == a;
    }
  }

  /** Splitting `a + [sep] + b` cuts at that separator when `b` has none. */
  lemma {:induction false} SplitAtLast(a: string, sep: char, b: string)
    requires sep !in b
    ensures Split(a + [sep] + b, sep) == Split(a, sep) + [b]
    decreases |a|
  {
    if a == [] {
      assert [] + [sep] + b == [sep] + b;
      assert ([sep] + b)[1..] == b;
      SplitWithoutSeparator(b, sep);
    } else {
      assert (a + [sep] + b)[1..] == a[1..] + [sep] + b;
      SplitAtLast(a[1..], sep, b);
      var front := Split(a[1..], sep);
      assert (front + [b])[1..] == front[1..] + [b];
    }
  }

  /** Pieces without `sep`, joined with `sep`, split back into the same pieces. */
  lemma {:induction false} SplitJoin(parts: seq<string>, sep: char)
    requires |parts| >= 1
    requires forall i :: 0 <= i < |parts| ==> sep !in parts[i]
    ensures Split(Join(parts, sep), sep) == parts
    decreases |parts|
  {
    if |parts| == 1 {
      SplitWithoutSeparator(parts[0], sep);
    } else {
      var init := parts[..|parts| - 1];
      SplitJoin(init, sep);
      SplitAtLast(Join(init, sep), sep, parts[|parts| - 1]);
      assert init + [parts[|parts| - 1]] == parts;
    }
  }

  predicate IsDigit(c: char)
  {
    '0' <= c <= '9'
  }

  predicate AllDigits(s: string)
  {
    forall i :: 0 <= i < |s| ==> IsDigit(s[i])
  }

  function DigitValue(c: char): nat
    requires IsDigit(c)
  {
    c as int - '0' as int
  }

  /** The number a string of decimal digits denotes, most significant digit first. */
  function Value(s: string): nat
    requires AllDigits(s)
  {
    if s == [] then 0 else 10 * Value(s[..|s| - 1]) + DigitValue(s[|s| - 1])
  }

  /**
   * `str::parse::<u64>`: an optional `+` followed by one or more decimal
   * digits whose value fits in 64 bits; anything else (the empty string, a
   * lone `+`, a `-`, any other character, a value above `u64::MAX`) is an error.
   */
  function ParseU64(s: string): Option<u64>
  {
    if s == [] then None
    else
      var k := if s[0] == '+' then 1 else 0;
      var digits := s[k..];
      if digits == [] || !AllDigits(digits) then None
      else if Value(digits) < LIMIT then Some(Value(digits) as u64)
      else None
  }

  /**
   * What `ParseU64` accepts: only an optional leading `+` and then digits,
   * read as the decimal value of the digits after the sign.
   */
  lemma ParseAccepts(s: string)
    ensures ParseU64(s).Some? ==>
      && s != []
      && var k := if s[0] == '+' then 1 else 0;
      && k < |s| && AllDigits(s[k..]) && ParseU64(s).value as nat == Value(s[k..])
    ensures ParseU64(s).Some? ==> forall i :: 0 <= i < |s| ==> IsDigit(s[i]) || (i == 0 && s[i] == '+')
  {
    if ParseU64(s).Some? {
      var k := if s[0] == '+' then 1 else 0;
      assert forall i :: k <= i < |s| ==> s[i] == s[k..][i - k];
    }
  }

  /** A non-empty string of digits parses exactly when its value fits in 64 bits. */
  lemma ParseDigits(s: string)
    requires AllDigits(s) && s != []
    ensures ParseU64(s).Some? <==> Value(s) <= MAX
    ensures ParseU64(s).Some? ==> ParseU64(s).value as nat == Value(s)
  {
    assert s[0] != '+' by { assert IsDigit(s[0]); }
    assert s[0..] == s;
  }

  /** A leading `+` before the digits is accepted and changes nothing. */
  lemma ParsePlus(d: string)
    requires AllDigits(d) && d != []
    ensures ParseU64(['+'] + d) == ParseU64(d)
  {
    assert (['+'] + d)[1..] == d;
    ParseDigits(d);
  }

  function DigitChar(d: nat): (c: char)
    requires d < 10
    ensures IsDigit(c) && DigitValue(c) == d
  {
    ('0' as int + d) as char
  }

  /** `n` written in decimal without leading zeros, as `{}` formats it. */
  function ToDecimal(n: nat): (s: string)
    ensures s != [] && AllDigits(s)
    ensures s[0] == '0' <==> n == 0
    ensures s[0] == '0' ==> |s| == 1
  {
    if n < 10 then [DigitChar(n)] else ToDecimal(n / 10) + [DigitChar(n % 10)]
  }

  /** Decimal rendering and the digit value are inverse. */
  lemma {:induction false} ValueToDecimal(n: nat)
    ensures Value(ToDecimal(n)) == n
  {
    var s := ToDecimal(n);
    if n >= 10 {
      ValueToDecimal(n / 10);
      assert s[..|s| - 1] == ToDecimal(n / 10);
    }
  }

  /** Every `u64`, written in decimal, parses back to itself. */
  lemma ParseToDecimal(x: u64)
    ensures ParseU64(ToDecimal(x as nat)) == Some(x)
  {
    ValueToDecimal(x as nat);
    ParseDigits(ToDecimal(x as nat));
  }
}
