/** The JavaScript string and number operations the build script relies on,
    stated on `seq<char>`: truthiness of an optional string, concatenation of
    `undefined`, `Number.prototype.toString` on non-negative integers,
    `padStart`, `slice(-k)`, `startsWith` and `includes`. The character
    search `IndexOf` and the digit scan `DigitSpan` are not used by the
    script; they serve the reader `ParseVersionText` of the version text. */
module JsStrings {

  datatype Option<+T> = None | Some(value: T)

  /** `!!s` for a value that is `undefined` or a string: only a non-empty string is truthy. */
  predicate Truthy(s: Option<string>) {
    s.Some? && s.value != ""
  }

  /** What `"" + s` gives for a value that is `undefined` or a string. */
  function ConcatText(s: Option<string>): (r: string)
    ensures s.Some? ==> r == s.value
    ensures r == "" <==> s == Some("")
  {
    if s.Some? then s.value else "undefined"
  }

  predicate IsDigit(c: char) {
    '0' <= c <= '9'
  }

  predicate AllDigits(s: string) {
    forall i :: 0 <= i < |s| ==> IsDigit(s[i])
  }

  function DigitValue(c: char): nat
    requires IsDigit(c)
  {
    c as int - '0' as int
  }

  function DigitChar(d: nat): (c: char)
    requires d < 10
    ensures IsDigit(c) && DigitValue(c) == d
  {
    ('0' as int + d) as char
  }

  /** `n.toString()` for a non-negative integer: its decimal digits, most
      significant first, with no leading zero. */
  function NatToString(n: nat): (s: string)
    ensures |s| >= 1 && AllDigits(s)
    ensures (|s| == 1) == (n < 10)
    ensures s[0] == '0' <==> n == 0
    decreases n
  {
    if n < 10 then [DigitChar(n)] else NatToString(n / 10) + [DigitChar(n % 10)]
  }

  /** The number a string of decimal digits denotes (leading zeros allowed). */
  function DigitsValue(s: string): nat
    requires AllDigits(s)
  {
    if s == [] then 0 else DigitsValue(s[..|s| - 1]) * 10 + DigitValue(s[|s| - 1])
  }

  /** Reading back the decimal text of `n` gives `n`. */
  lemma {:induction false} NatToStringRoundTrip(n: nat)
    ensures DigitsValue(NatToString(n)) == n
  {
    if n >= 10 {
      var s := NatToString(n);
      assert s[..|s| - 1] == NatToString(n / 10);
      NatToStringRoundTrip(n / 10);
    }
  }

  /** The decimal text of a number is the only digit string without a
      superfluous leading zero that denotes it. */
  lemma {:induction false} NatToStringCanonical(s: string)
    requires |s| >= 1 && AllDigits(s)
    requires |s| > 1 ==> s[0] != '0'
    ensures NatToString(DigitsValue(s)) == s
    decreases |s|
  {
    var init := s[..|s| - 1];
    var d := DigitValue(s[|s| - 1]);
    if |s| == 1 {
      assert init == [];
      assert [DigitChar(d)] == s;
    } else {
      assert init[0] == s[0];
      NatToStringCanonical(init);
      if |init| > 1 {
        assert DigitsValue(init) != 0;
      } else {
        assert DigitsValue(init[..0]) == 0;
        assert DigitsValue(init) == DigitValue(init[0]) != 0;
      }
      var n := DigitsValue(s);
      assert n == DigitsValue(init) * 10 + d;
      assert n / 10 == DigitsValue(init) && n % 10 == d;
      assert DigitChar(d) == s[|s| - 1];
      assert s == init + [s[|s| - 1]];
    }
  }

  /** `s.padStart(width, c)` with a one-character pad string. */
  function PadStart(s: string, width: nat, c: char): (r: string)
    ensures |r| == if |s| >= width then |s| else width
    ensures forall i :: 0 <= i < |r| - |s| ==> r[i] == c
    ensures forall i :: 0 <= i < |s| ==> r[|r| - |s| + i] == s[i]
  {
    if |s| >= width then s else seq(width - |s|, _ => c) + s
  }

  /** `s.slice(-k)` for k > 0: the last `k` characters, or all of `s` when it
      is shorter. (`slice(-0)` would be all of `s`, hence the requires.) */
  function SliceFromEnd(s: string, k: nat): (r: string)
    requires k > 0
    ensures |r| == if |s| < k then |s| else k
    ensures forall i :: 0 <= i < |r| ==> r[i] == s[|s| - |r| + i]
  {
    if |s| < k then s else s[|s| - k..]
  }

  /** `s.startsWith(p)`: `s` is `p` followed by some rest. */
  predicate StartsWith(s: string, p: string)
    ensures StartsWith(s, p) <==> exists rest :: s == p + rest
  {
    if |p| <= |s| && s[..|p|] == p then
      assert s == p + s[|p|..];
      true
    else
      false
  }

  /** `s.includes(t)`: `t` occurs in `s` at some position. */
  predicate Contains(s: string, t: string)
    ensures Contains(s, t) ==> |t| <= |s|
    decreases |s|
  {
    StartsWith(s, t) || (s != [] && Contains(s[1..], t))
  }

  /** `Contains` holds exactly when `t` is a slice of `s`. */
  lemma {:induction false} ContainsAt(s: string, t: string, k: nat)
    requires k + |t| <= |s| && s[k..k + |t|] == t
    ensures Contains(s, t)
    decreases k
  {
    if k > 0 {
      assert s[1..][k - 1..k - 1 + |t|] == s[k..k + |t|];
      ContainsAt(s[1..], t, k - 1);
    }
  }

  /** A string containing `t` contains it at a position: the converse of `ContainsAt`. */
  lemma {:induction false} ContainsWitness(s: string, t: string) returns (k: nat)
    requires Contains(s, t)
    ensures k + |t| <= |s| && s[k..k + |t|] == t
    decreases |s|
  {
    if StartsWith(s, t) {
      k := 0;
    } else {
      var j := ContainsWitness(s[1..], t);
      assert s[1..][j..j + |t|] == s[j + 1..j + 1 + |t|];
      k := j + 1;
    }
  }

  /** No occurrence of `t` can begin inside `p`: every character of `p` that
      could start `t` is followed, still inside `p`, by one that cannot continue it. */
  predicate NoStartWithin(p: string, t: string)
    requires |t| >= 2
  {
    forall i :: 0 <= i < |p| ==> p[i] != t[0] || (i + 1 < |p| && p[i + 1] != t[1])
  }

  /** When no occurrence of `t` can begin inside `p`, `p + q` contains `t`
      exactly when `q` does. */
  lemma {:induction false} ContainsSkipPrefix(p: string, q: string, t: string)
    requires |t| >= 2 && NoStartWithin(p, t)
    ensures Contains(p + q, t) <==> Contains(q, t)
    decreases |p|
  {
    if p != [] {
      assert (p + q)[1..] == p[1..] + q;
      assert !StartsWith(p + q, t) by {
        var i0 := 0;
        assert p[i0] != t[0] || (i0 + 1 < |p| && p[i0 + 1] != t[1]);
        if |t| <= |p + q| {
          if p[0] != t[0] {
            assert (p + q)[..|t|][0] != t[0];
          } else {
            assert (p + q)[..|t|][1] == p[1] != t[1];
          }
        }
      }
      assert NoStartWithin(p[1..], t) by {
        forall i | 0 <= i < |p[1..]|
          ensures p[1..][i] != t[0] || (i + 1 < |p[1..]| && p[1..][i + 1] != t[1])
        {
          assert p[1..][i] == p[i + 1];
          assert p[i + 1] != t[0] || (i + 2 < |p| && p[i + 2] != t[1]);
          assert i + 1 < |p[1..]| ==> p[1..][i + 1] == p[i + 2];
        }
      }
      ContainsSkipPrefix(p[1..], q, t);
    } else {
      assert p + q == q;
    }
  }

  /** The position of the first `c` in `s`, or `|s|` when there is none; used
      only by the version-text reader, not by the script. */
  function IndexOf(s: string, c: char): (k: nat)
    ensures k <= |s|
    ensures forall j :: 0 <= j < k ==> s[j] != c
    ensures k < |s| ==> s[k] == c
    decreases |s|
  {
    if s == [] then 0 else if s[0] == c then 0 else 1 + IndexOf(s[1..], c)
  }

  /** The number of decimal digits at the start of `s`; used only by the
      version-text reader, not by the script. */
  function DigitSpan(s: string): (k: nat)
    ensures k <= |s| && AllDigits(s[..k])
    ensures k < |s| ==> !IsDigit(s[k])
    decreases |s|
  {
    if s == [] || !IsDigit(s[0]) then 0 else 1 + DigitSpan(s[1..])
  }

  /** The digit run at the start of `d + rest` is exactly `d` when `rest` does not continue it. */
  lemma {:induction false} DigitSpanAppend(d: string, rest: string)
    requires AllDigits(d)
    requires rest == [] || !IsDigit(rest[0])
    ensures DigitSpan(d + rest) == |d|
    decreases |d|
  {
    if d == [] {
      assert d + rest == rest;
    } else {
      assert (d + rest)[1..] == d[1..] + rest;
      DigitSpanAppend(d[1..], rest);
    }
  }
}
