/**
 * The few Python `str` operations the monitor relies on: `sep.join`, `s.split(sep)`,
 * `sub in s`, `s.strip()`, `s.isdigit()`, `int(s)` and `str(n)` for naturals.
 */
module Text {

  /** `sep.join(parts)`. */
  function Join(sep: string, parts: seq<string>): string
  {
    if |parts| == 0 then ""
    else if |parts| == 1 then parts[0]
    else parts[0] + sep + Join(sep, parts[1..])
  }

  /** `s.split(sep)` for a non-empty separator: cut at every leftmost, non-overlapping occurrence. */
  function Split(s: string, sep: string): (parts: seq<string>)
    requires |sep| > 0
    ensures |parts| >= 1
    decreases |s|
  {
    if |s| < |sep| then [s]
    else if s[..|sep|] == sep then [""] + Split(s[|sep|..], sep)
    else
      var rest := Split(s[1..], sep);
      [[s[0]] + rest[0]] + rest[1..]
  }

  /** Joining the pieces of a split with the same separator gives back the string. */
  lemma {:induction false} JoinSplit(s: string, sep: string)
    requires |sep| > 0
    ensures Join(sep, Split(s, sep)) == s
    decreases |s|
  {
    if |s| < |sep| {
    } else if s[..|sep|] == sep {
      var rest := Split(s[|sep|..], sep);
      JoinSplit(s[|sep|..], sep);
      assert Split(s, sep) == [""] + rest;
      assert ([""] + rest)[1..] == rest;
      assert s == s[..|sep|] + s[|sep|..];
    } else {
      var rest := Split(s[1..], sep);
      JoinSplit(s[1..], sep);
      assert Split(s, sep) == [[s[0]] + rest[0]] + rest[1..];
      JoinWidenFirst(sep, s[0], rest);
      assert s == [s[0]] + s[1..];
    }
  }

  /** Putting a character in front of the first piece puts it in front of the joined text. */
  lemma JoinWidenFirst(sep: string, x: char, rest: seq<string>)
    requires |rest| >= 1
    ensures Join(sep, [[x] + rest[0]] + rest[1..]) == [x] + Join(sep, rest)
  {
    var parts := [[x] + rest[0]] + rest[1..];
    assert parts[1..] == rest[1..];
    if |rest| > 1 {
      assert Join(sep, parts) == ([x] + rest[0]) + sep + Join(sep, rest[1..]);
      assert Join(sep, rest) == rest[0] + sep + Join(sep, rest[1..]);
    }
  }

  /** Appending is associative; stated once so that loops need not prove it by extensionality. */
  lemma AppendAssoc(a: string, b: string, c: string)
    ensures (a + b) + c == a + (b + c)
  {
  }

  /** `sub in s`. */
  predicate Contains(s: string, sub: string)
    decreases |s|
  {
    sub <= s || (|s| > 0 && Contains(s[1..], sub))
  }

  lemma {:induction false} ContainsLength(s: string, sub: string)
    requires Contains(s, sub)
    ensures |sub| <= |s|
    decreases |s|
  {
    if !(sub <= s) {
      ContainsLength(s[1..], sub);
    }
  }

  /** Text found in a string is still found after something is appended to it. */
  lemma {:induction false} ContainsAppend(s: string, b: string, sub: string)
    requires Contains(s, sub)
    ensures Contains(s + b, sub)
    decreases |s|
  {
    if !(sub <= s) {
      ContainsAppend(s[1..], b, sub);
      assert (s + b)[1..] == s[1..] + b;
    }
  }

  /** Text found in a string is still found after something is put before it. */
  lemma {:induction false} ContainsPrepend(a: string, s: string, sub: string)
    requires Contains(s, sub)
    ensures Contains(a + s, sub)
    decreases |a|
  {
    if a == [] {
      assert a + s == s;
    } else {
      ContainsPrepend(a[1..], s, sub);
      assert (a + s)[1..] == a[1..] + s;
    }
  }

  /** A string that holds the separator splits into at least two pieces, so `split(sep)[1]` exists. */
  lemma {:induction false} SplitAtLeastTwo(s: string, sep: string)
    requires |sep| > 0 && Contains(s, sep)
    ensures |Split(s, sep)| >= 2
    decreases |s|
  {
    ContainsLength(s, sep);
    if s[..|sep|] == sep {
    } else {
      assert !(sep <= s);
      SplitAtLeastTwo(s[1..], sep);
    }
  }

  /** Splitting on a one-character separator cuts at its first occurrence. */
  lemma {:induction false} SplitAtFirst(u: string, c: char, w: string)
    requires c !in u
    ensures Split(u + [c] + w, [c]) == [u] + Split(w, [c])
    decreases |u|
  {
    var s := u + [c] + w;
    if u == [] {
      assert s[..1] == [c];
      assert s[1..] == w;
    } else {
      assert s[..1] == [u[0]];
      assert s[1..] == u[1..] + [c] + w;
      SplitAtFirst(u[1..], c, w);
      assert [u[0]] + u[1..] == u;
    }
  }

  /** Splitting a string without the (one-character) separator gives the string alone. */
  lemma {:induction false} SplitAbsent(s: string, c: char)
    requires c !in s
    ensures Split(s, [c]) == [s]
    decreases |s|
  {
    if |s| >= 1 {
      assert s[..1] == [s[0]];
      SplitAbsent(s[1..], c);
      assert [s[0]] + s[1..] == s;
    }
  }

  /** The characters for which Python's `str.isspace()` holds. */
  predicate IsSpace(ch: char)
  {
    ch == ' ' || ch == '\t' || ch == '\n' || ch == '\r' || ch == '\U{000B}' || ch == '\U{000C}'
    || ('\U{001C}' <= ch <= '\U{001F}') || ch == '\U{0085}' || ch == '\U{00A0}' || ch == '\U{1680}'
    || ('\U{2000}' <= ch <= '\U{200A}') || ch == '\U{2028}' || ch == '\U{2029}' || ch == '\U{202F}'
    || ch == '\U{205F}' || ch == '\U{3000}'
  }

  /** `not s or not s.strip()`: empty, or whitespace only. */
  predicate IsBlank(s: string)
  {
    forall i :: 0 <= i < |s| ==> IsSpace(s[i])
  }

  function TrimStart(s: string): (r: string)
    ensures |r| <= |s| && r == s[|s| - |r|..]
    ensures r == [] || !IsSpace(r[0])
    ensures forall i :: 0 <= i < |s| - |r| ==> IsSpace(s[i])
  {
    if |s| > 0 && IsSpace(s[0]) then TrimStart(s[1..]) else s
  }

  function TrimEnd(s: string): (r: string)
    ensures |r| <= |s| && r == s[..|r|]
    ensures r == [] || !IsSpace(r[|r| - 1])
    ensures forall i :: |r| <= i < |s| ==> IsSpace(s[i])
  {
    if |s| > 0 && IsSpace(s[|s| - 1]) then TrimEnd(s[..|s| - 1]) else s
  }

  /** `s.strip()`. */
  function Strip(s: string): string
  {
    TrimEnd(TrimStart(s))
  }

  /** `strip()` removes whitespace only at the two ends, and leaves nothing exactly when the string is blank. */
  lemma StripBlank(s: string)
    ensures Strip(s) == "" <==> IsBlank(s)
    ensures exists i, j :: 0 <= i <= j <= |s| && Strip(s) == s[i..j]
  {
    StripEmpty(s);
    var t := TrimStart(s);
    var i := |s| - |t|;
    SliceOfSlice(s, i, |TrimEnd(t)|);
    assert Strip(s) == s[i..i + |TrimEnd(t)|];
  }

  lemma StripEmpty(s: string)
    ensures Strip(s) == "" <==> IsBlank(s)
  {
    var t := TrimStart(s);
    if t != [] {
      assert !IsSpace(t[0]);
      assert TrimEnd(t) != [];
      assert t[0] == s[|s| - |t|];
    }
  }

  /** The last element of a concatenation with a non-empty right part, and what precedes it. */
  lemma DropLastAppend<T>(a: seq<T>, b: seq<T>)
    requires b != []
    ensures (a + b)[..|a + b| - 1] == a + b[..|b| - 1] && (a + b)[|a + b| - 1] == b[|b| - 1]
  {
  }

  /** Deleting an element other than the last one keeps the last one last. */
  lemma DeleteBeforeLast<T>(d: seq<T>, i: nat)
    requires i < |d| - 1
    ensures var q := d[..i] + d[i + 1..];
      q != [] && q[..|q| - 1] == d[..|d| - 1][..i] + d[..|d| - 1][i + 1..] && q[|q| - 1] == d[|d| - 1]
  {
    var q := d[..i] + d[i + 1..];
    var p := d[..|d| - 1];
    assert q[..|q| - 1] == p[..i] + p[i + 1..];
  }

  lemma SliceOfSlice(s: string, i: nat, n: nat)
    requires i + n <= |s|
    ensures s[i..][..n] == s[i..i + n]
  {
  }

  predicate IsDigit(ch: char) { '0' <= ch <= '9' }

  function DigitValue(ch: char): nat
    requires IsDigit(ch)
  {
    ch as int - '0' as int
  }

  /** `s.isdigit()` for ASCII digits: non-empty and digits only. */
  predicate IsDigits(s: string)
  {
    |s| > 0 && forall i :: 0 <= i < |s| ==> IsDigit(s[i])
  }

  /** `int(s)` for a string of decimal digits. */
  function DecimalValue(s: string): nat
    requires forall i :: 0 <= i < |s| ==> IsDigit(s[i])
  {
    if s == [] then 0 else DecimalValue(s[..|s| - 1]) * 10 + DigitValue(s[|s| - 1])
  }

  /** `str(n)` for a natural number. */
  function NatToString(n: nat): (s: string)
    ensures IsDigits(s)
  {
    if n < 10 then [('0' as int + n) as char]
    else NatToString(n / 10) + [('0' as int + n % 10) as char]
  }

  /** Reading back the decimal text of a number gives the number. */
  lemma {:induction false} DecimalRoundTrip(n: nat)
    ensures DecimalValue(NatToString(n)) == n
  {
    var s := NatToString(n);
    if n >= 10 {
      DecimalRoundTrip(n / 10);
      assert s[..|s| - 1] == NatToString(n / 10);
    } else {
      assert s[..|s| - 1] == [];
    }
  }
}
