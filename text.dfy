/** The string operations the updater's messages are built from: JavaScript's
    `Array.prototype.join`, `String.prototype.split` on one character, and the
    decimal rendering a template literal gives a non-negative integer. */
module Text {

  /** `parts.join(sep)`: the parts with `sep` between neighbours. */
  function Join(parts: seq<string>, sep: string): string
  {
    if |parts| == 0 then ""
    else if |parts| == 1 then parts[0]
    else parts[0] + sep + Join(parts[1..], sep)
  }

  /** Joining a part ahead of a non-empty list puts one separator between them. */
  lemma JoinCons(first: string, rest: seq<string>, sep: string)
    requires |rest| > 0
    ensures Join([first] + rest, sep) == first + sep + Join(rest, sep)
  {
    assert ([first] + rest)[1..] == rest;
  }

  /** `s.split(c)`: the maximal runs between occurrences of `c`; always at least
      one piece, the empty string splitting into `[""]`. The pieces are free of
      `c` and joined with `c` give `s` back. */
  function Split(s: string, c: char): (pieces: seq<string>)
    ensures |pieces| >= 1
    ensures forall k :: 0 <= k < |pieces| ==> c !in pieces[k]
    ensures Join(pieces, [c]) == s
  {
    if s == [] then [""]
    else
      var rest := Split(s[1..], c);
      if s[0] == c then
        JoinCons("", rest, [c]);
        assert [c] + s[1..] == s;
        [""] + rest
      else
        var head := [s[0]] + rest[0];
        if |rest| == 1 then
          assert [s[0]] + s[1..] == s;
          [head]
        else
          JoinCons(head, rest[1..], [c]);
          assert [rest[0]] + rest[1..] == rest;
          JoinCons(rest[0], rest[1..], [c]);
          assert [s[0]] + s[1..] == s;
          [head] + rest[1..]
  }

  /** A piece free of the separator splits into itself. */
  lemma {:induction false} SplitFree(a: string, c: char)
    requires c !in a
    ensures Split(a, c) == [a]
  {
    if a != [] {
      SplitFree(a[1..], c);
      assert [a[0]] + a[1..] == a;
    }
  }

  /** Splitting stops at the first separator. */
  lemma {:induction false} SplitAtFirst(a: string, c: char, b: string)
    requires c !in a
    ensures Split(a + [c] + b, c) == [a] + Split(b, c)
  {
    if a == [] {
      assert a + [c] + b == [c] + b;
      assert ([c] + b)[1..] == b;
    } else {
      SplitAtFirst(a[1..], c, b);
      assert (a + [c] + b)[1..] == a[1..] + [c] + b;
      assert [a[0]] + a[1..] == a;
    }
  }

  /** Splitting undoes joining when no part holds the separator; the list must
      be non-empty because `[].join(sep)` and `[""].join(sep)` are both `""`. */
  lemma {:induction false} SplitJoin(parts: seq<string>, c: char)
    requires |parts| > 0
    requires forall k :: 0 <= k < |parts| ==> c !in parts[k]
    ensures Split(Join(parts, [c]), c) == parts
  {
    if |parts| == 1 {
      SplitFree(parts[0], c);
    } else {
      SplitJoin(parts[1..], c);
      SplitAtFirst(parts[0], c, Join(parts[1..], [c]));
      assert [parts[0]] + parts[1..] == parts;
    }
  }

  /** Two non-empty lists whose parts are free of the separator join to the
      same string only if they are equal. */
  lemma JoinInjective(a: seq<string>, b: seq<string>, c: char)
    requires |a| > 0 && |b| > 0
    requires forall k :: 0 <= k < |a| ==> c !in a[k]
    requires forall k :: 0 <= k < |b| ==> c !in b[k]
    requires Join(a, [c]) == Join(b, [c])
    ensures a == b
  {
    SplitJoin(a, c);
    SplitJoin(b, c);
  }

  function DigitChar(d: nat): char
    requires d < 10
  {
    "0123456789"[d]
  }

  function DigitValue(ch: char): nat
  {
    if '0' <= ch <= '9' then (ch - '0') as nat else 0
  }

  predicate IsDigit(ch: char)
  {
    '0' <= ch <= '9'
  }

  /** The number a string of decimal digits denotes. */
  function DecimalValue(s: string): nat
  {
    if s == [] then 0 else DecimalValue(s[..|s| - 1]) * 10 + DigitValue(s[|s| - 1])
  }

  /** `${n}` for a non-negative integer: its shortest decimal rendering. */
  function NatToString(n: nat): string
  {
    if n < 10 then [DigitChar(n)] else NatToString(n / 10) + [DigitChar(n % 10)]
  }

  /** The rendering consists of digits, has no leading zero (unless it is "0")
      and reads back as the same number. */
  lemma {:induction false} NatToStringDecimal(n: nat)
    ensures |NatToString(n)| > 0
    ensures forall k :: 0 <= k < |NatToString(n)| ==> IsDigit(NatToString(n)[k])
    ensures NatToString(n)[0] == '0' ==> n == 0
    ensures DecimalValue(NatToString(n)) == n
  {
    if n >= 10 {
      NatToStringDecimal(n / 10);
      var s := NatToString(n / 10) + [DigitChar(n % 10)];
      assert s[..|s| - 1] == NatToString(n / 10);
      assert s[0] == NatToString(n / 10)[0];
    }
  }
}
