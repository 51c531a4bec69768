/** String helpers standing for the JavaScript built-ins the core calls:
    `String.prototype.split` with a one-character separator and the
    conversion `Number(string)`. */
module Text {
  import opened Basics

  /** `s.split(sep)`: the pieces of `s` between occurrences of `sep`, in order.
      There is always at least one piece, and no piece contains `sep`. */
  function Split(s: string, sep: char): (parts: seq<string>)
    ensures |parts| >= 1
    ensures forall k :: 0 <= k < |parts| ==> sep !in parts[k]
    ensures parts[0] <= s
    ensures sep in s ==> |parts| >= 2 && |parts[0]| < |s| && s[|parts[0]|] == sep
    ensures sep !in s ==> parts == [s]
  {
    if s == [] then [[]]
    else
      var rest := Split(s[1..], sep);
      if s[0] == sep then [[]] + rest
      else
        assert sep !in s ==> [s[0]] + rest[0] == s;
        [[s[0]] + rest[0]] + rest[1..]
  }

  /** `parts.join(sep)`. */
  function Join(parts: seq<string>, sep: char): string
    requires |parts| >= 1
  {
    if |parts| == 1 then parts[0] else parts[0] + [sep] + Join(parts[1..], sep)
  }

  /** Splitting loses nothing: joining the pieces back gives the original string. */
  lemma {:induction false} JoinSplit(s: string, sep: char)
    ensures Join(Split(s, sep), sep) == s
  {
    if s != [] {
      var rest := Split(s[1..], sep);
      JoinSplit(s[1..], sep);
      if s[0] == sep {
        assert Split(s, sep) == [[]] + rest;
        assert Split(s, sep)[1..] == rest;
      } else {
        var parts := Split(s, sep);
        assert parts == [[s[0]] + rest[0]] + rest[1..];
        if |rest| == 1 {
          assert parts == [[s[0]] + rest[0]];
        } else {
          assert parts[1..] == rest[1..];
          assert Join(rest, sep) == rest[0] + [sep] + Join(rest[1..], sep);
        }
      }
    }
  }

  /** A string with exactly one separator splits into the two sides. */
  lemma {:induction false} SplitOnce(a: string, b: string, sep: char)
    requires sep !in a && sep !in b
    ensures Split(a + [sep] + b, sep) == [a, b]
  {
    var s := a + [sep] + b;
    if a == [] {
      assert s[1..] == b;
    } else {
      assert s[1..] == a[1..] + [sep] + b;
      SplitOnce(a[1..], b, sep);
      assert [s[0]] + a[1..] == a;
    }
  }

  /** The white-space characters `Number` strips from both ends (the ASCII ones). */
  predicate IsSpace(c: char) {
    c == ' ' || c == '\t' || c == '\n' || c == '\r' || c == '\U{B}' || c == '\U{C}'
  }

  predicate IsDigit(c: char) {
    '0' <= c <= '9'
  }

  /** `s` with white space removed from both ends. */
  function Trim(s: string): (t: string)
    ensures |t| <= |s|
    ensures t != [] ==> !IsSpace(t[0]) && !IsSpace(t[|t| - 1])
    ensures (forall k :: 0 <= k < |s| ==> !IsSpace(s[k])) ==> t == s
  {
    if s == [] then []
    else if IsSpace(s[0]) then Trim(s[1..])
    else if IsSpace(s[|s| - 1]) then Trim(s[..|s| - 1])
    else s
  }

  /** The value of a non-empty string of decimal digits. */
  function DigitsValue(s: string): (v: nat)
    requires forall k :: 0 <= k < |s| ==> IsDigit(s[k])
  {
    if s == [] then 0
    else
      assert IsDigit(s[|s| - 1]);
      DigitsValue(s[..|s| - 1]) * 10 + (s[|s| - 1] as int - '0' as int)
  }

  /** The value of one or two digits. */
  lemma DigitsValueShort(s: string)
    requires 1 <= |s| <= 2 && forall k :: 0 <= k < |s| ==> IsDigit(s[k])
    ensures |s| == 1 ==> DigitsValue(s) == s[0] as int - '0' as int
    ensures |s| == 2 ==> DigitsValue(s) == (s[0] as int - '0' as int) * 10 + (s[1] as int - '0' as int)
  {
    assert s[..1][..0] == [];
    if |s| == 2 {
      assert s[..1] == [s[0]];
    }
  }

  /** `Number(field)` on the strings it maps to integers: after trimming, the
      empty string is 0 and an optional sign followed by decimal digits is
      that integer; everything else is taken to be `NaN` (`None`). */
  function NumberValue(field: string): (v: Option<int>)
    ensures Trim(field) == [] ==> v == Some(0)
  {
    var t := Trim(field);
    if t == [] then Some(0)
    else if (t[0] == '+' || t[0] == '-') && |t| > 1 && forall k :: 1 <= k < |t| ==> IsDigit(t[k]) then
      var magnitude: int := DigitsValue(t[1..]);
      var value: int := if t[0] == '-' then -magnitude else magnitude;
      Some(value)
    else if forall k :: 0 <= k < |t| ==> IsDigit(t[k]) then Some(DigitsValue(t))
    else None
  }

  /** A string of decimal digits converts to the number it writes. */
  lemma NumberOfDigits(s: string)
    requires s != [] && forall k :: 0 <= k < |s| ==> IsDigit(s[k])
    ensures NumberValue(s) == Some(DigitsValue(s))
  {
    assert forall k :: 0 <= k < |s| ==> !IsSpace(s[k]);
  }
}
