/**
 * The few JavaScript string operations the server and the forms rely on:
 * `String.prototype.trim`, `startsWith` and `split` on a one-character separator.
 */
module Strings {
  import opened Wrappers

  /** JavaScript truthiness of an optional string field: present and not the empty string. */
  predicate Truthy(s: Option<string>) {
    s.Some? && s.value != ""
  }

  /** How many UTF-16 code units JavaScript stores for one character: two above U+FFFF. */
  function CodeUnits(c: char): nat {
    if c as int > 0xFFFF then 2 else 1
  }

  /**
   * JavaScript's `s.length`, which Mongoose's `minlength`/`maxlength` also use: the number
   * of UTF-16 code units, so a character outside the Basic Multilingual Plane counts twice.
   */
  function Utf16Length(s: string): (n: nat)
    ensures |s| <= n <= 2 * |s|
  {
    if s == [] then 0 else CodeUnits(s[0]) + Utf16Length(s[1..])
  }

  /** The code-unit length is the character count exactly when no character lies above U+FFFF. */
  lemma {:induction false} Utf16LengthBmp(s: string)
    ensures (forall i :: 0 <= i < |s| ==> s[i] as int <= 0xFFFF) <==> Utf16Length(s) == |s|
    decreases |s|
  {
    if s != [] {
      Utf16LengthBmp(s[1..]);
      assert forall i :: 0 < i < |s| ==> s[i] == s[1..][i - 1];
    }
  }

  /** The code units of two strings one after the other add up. */
  lemma {:induction false} Utf16LengthConcat(a: string, b: string)
    ensures Utf16Length(a + b) == Utf16Length(a) + Utf16Length(b)
    decreases |a|
  {
    if a != [] {
      assert (a + b)[1..] == a[1..] + b;
      Utf16LengthConcat(a[1..], b);
    } else {
      assert a + b == b;
    }
  }

  /** The ECMAScript WhiteSpace and LineTerminator code points, which `trim` removes. */
  predicate IsSpace(c: char) {
    || c == ' ' || c == '\t' || c == '\n' || c == '\r' || c == '\U{000B}' || c == '\U{000C}'
    || c == '\U{00A0}' || c == '\U{1680}' || ('\U{2000}' <= c <= '\U{200A}')
    || c == '\U{2028}' || c == '\U{2029}' || c == '\U{202F}' || c == '\U{205F}'
    || c == '\U{3000}' || c == '\U{FEFF}'
  }

  predicate AllSpace(s: string) {
    forall i :: 0 <= i < |s| ==> IsSpace(s[i])
  }

  /**
   * JavaScript's `s.trim()`: drops the white space at both ends. What is left starts and
   * ends with a non-space, and is empty exactly when `s` is all white space.
   */
  function Trim(s: string): (r: string)
    ensures |r| <= |s|
    ensures r != [] ==> !IsSpace(r[0]) && !IsSpace(r[|r| - 1])
    ensures r == [] <==> AllSpace(s)
    decreases |s|
  {
    if |s| > 0 && IsSpace(s[0]) then
      AllSpaceConcat([s[0]], s[1..]);
      assert s == [s[0]] + s[1..];
      Trim(s[1..])
    else if |s| > 0 && IsSpace(s[|s| - 1]) then
      AllSpaceConcat(s[..|s| - 1], [s[|s| - 1]]);
      assert s == s[..|s| - 1] + [s[|s| - 1]];
      Trim(s[..|s| - 1])
    else s
  }

  lemma AllSpaceConcat(a: string, b: string)
    ensures AllSpace(a + b) <==> AllSpace(a) && AllSpace(b)
  {
    if AllSpace(a + b) {
      forall i | 0 <= i < |a| ensures IsSpace(a[i]) { assert a[i] == (a + b)[i]; }
      forall i | 0 <= i < |b| ensures IsSpace(b[i]) { assert b[i] == (a + b)[|a| + i]; }
    }
    if AllSpace(a) && AllSpace(b) {
      forall i | 0 <= i < |a + b| ensures IsSpace((a + b)[i]) {
        if i < |a| { assert (a + b)[i] == a[i]; } else { assert (a + b)[i] == b[i - |a|]; }
      }
    }
  }

  lemma LastSplit(s: string)
    requires |s| > 0
    ensures s == s[..|s| - 1] + [s[|s| - 1]]
  {
  }

  lemma DropSnoc(t: string, c: char, k: nat)
    requires k <= |t|
    ensures (t + [c])[k..] == t[k..] + [c]
  {
    var u := (t + [c])[k..];
    assert |u| == |t[k..] + [c]|;
    forall i | 0 <= i < |u| ensures u[i] == (t[k..] + [c])[i] {
      if i < |t| - k { assert u[i] == t[k + i]; } else { assert u[i] == c; }
    }
  }

  /** `r` sits in `s` at offset `a`, with only white space before and after it. */
  predicate SliceAt(s: string, r: string, a: nat) {
    a + |r| <= |s| && r == s[a..a + |r|] && AllSpace(s[..a]) && AllSpace(s[a + |r|..])
  }

  /** A slice of `s[1..]` after a leading space is a slice of `s`, one further on. */
  lemma SliceAfterSpace(s: string, r: string, a: nat)
    requires |s| > 0 && IsSpace(s[0]) && SliceAt(s[1..], r, a)
    ensures SliceAt(s, r, a + 1)
  {
    var t := s[1..];
    assert s[..a + 1] == [s[0]] + t[..a];
    AllSpaceConcat([s[0]], t[..a]);
    assert s[a + 1..a + 1 + |r|] == t[a..a + |r|];
    assert s[a + 1 + |r|..] == t[a + |r|..];
  }

  /** A slice of `s[..|s| - 1]` before a trailing space is a slice of `s` at the same offset. */
  lemma SliceBeforeSpace(s: string, r: string, a: nat)
    requires |s| > 0 && IsSpace(s[|s| - 1]) && SliceAt(s[..|s| - 1], r, a)
    ensures SliceAt(s, r, a)
  {
    var t := s[..|s| - 1];
    LastSplit(s);
    assert s[..a] == t[..a];
    assert s[a..a + |r|] == t[a..a + |r|];
    DropSnoc(t, s[|s| - 1], a + |r|);
    AllSpaceConcat(t[a + |r|..], [s[|s| - 1]]);
  }

  /** What `trim` keeps is one slice of `s`, and only white space lies on either side of it. */
  lemma {:induction false} TrimSlice(s: string)
    ensures exists a: nat :: SliceAt(s, Trim(s), a)
    decreases |s|
  {
    var r := Trim(s);
    if |s| > 0 && IsSpace(s[0]) {
      TrimSlice(s[1..]);
      var a: nat :| SliceAt(s[1..], r, a);
      SliceAfterSpace(s, r, a);
    } else if |s| > 0 && IsSpace(s[|s| - 1]) {
      TrimSlice(s[..|s| - 1]);
      var a: nat :| SliceAt(s[..|s| - 1], r, a);
      SliceBeforeSpace(s, r, a);
    } else {
      assert s[0..|s|] == s;
      assert SliceAt(s, r, 0);
    }
  }

  /** Trimming twice is trimming once. */
  lemma TrimIdempotent(s: string)
    ensures Trim(Trim(s)) == Trim(s)
  {
    TrimOfTrimmed(Trim(s));
  }

  /** A string with no white space at either end is its own trim. */
  lemma TrimOfTrimmed(s: string)
    requires s != [] ==> !IsSpace(s[0]) && !IsSpace(s[|s| - 1])
    ensures Trim(s) == s
  {
  }

  /** Trimming never lengthens a string, counted in code units. */
  lemma {:induction false} TrimUtf16Length(s: string)
    ensures Utf16Length(Trim(s)) <= Utf16Length(s)
    decreases |s|
  {
    if |s| > 0 && IsSpace(s[0]) {
      TrimUtf16Length(s[1..]);
    } else if |s| > 0 && IsSpace(s[|s| - 1]) {
      TrimUtf16Length(s[..|s| - 1]);
      LastSplit(s);
      Utf16LengthConcat(s[..|s| - 1], [s[|s| - 1]]);
    }
  }

  /** JavaScript's `s.startsWith(p)`. */
  predicate StartsWith(s: string, p: string) {
    |p| <= |s| && s[..|p|] == p
  }

  /**
   * JavaScript's `s.split(sep)` for a one-character separator: the fields between
   * consecutive separators, empty fields included, none of them containing `sep`.
   */
  function Split(s: string, sep: char): (r: seq<string>)
    ensures |r| >= 1
    ensures forall i :: 0 <= i < |r| ==> sep !in r[i]
    ensures |r[0]| <= |s| && r[0] == s[..|r[0]|]
    ensures |r[0]| < |s| ==> s[|r[0]|] == sep
    ensures |r| == 1 <==> sep !in s
    decreases |s|
  {
    if |s| == 0 then [""]
    else if s[0] == sep then [""] + Split(s[1..], sep)
    else
      var rest := Split(s[1..], sep);
      assert s == [s[0]] + s[1..];
      [[s[0]] + rest[0]] + rest[1..]
  }

  /** JavaScript's `fields.join(sep)`. */
  function Join(fields: seq<string>, sep: char): string
    requires |fields| >= 1
  {
    if |fields| == 1 then fields[0] else fields[0] + [sep] + Join(fields[1..], sep)
  }

  /** Putting a character in front of the first field puts it in front of the joined string. */
  lemma JoinConsHead(fields: seq<string>, c: char, sep: char)
    requires |fields| >= 1
    ensures Join([[c] + fields[0]] + fields[1..], sep) == [c] + Join(fields, sep)
  {
    var g := [[c] + fields[0]] + fields[1..];
    assert g[1..] == fields[1..];
  }

  /** Splitting and joining again gives back the original string. */
  lemma {:induction false} SplitJoin(s: string, sep: char)
    ensures Join(Split(s, sep), sep) == s
    decreases |s|
  {
    if |s| == 0 {
    } else if s[0] == sep {
      var rest := Split(s[1..], sep);
      SplitJoin(s[1..], sep);
      assert ([""] + rest)[1..] == rest;
      assert Join([""] + rest, sep) == [sep] + Join(rest, sep);
      assert s == [sep] + s[1..];
    } else {
      var rest := Split(s[1..], sep);
      SplitJoin(s[1..], sep);
      JoinConsHead(rest, s[0], sep);
      assert s == [s[0]] + s[1..];
    }
  }

  /** The fields after the first are the split of what follows the first separator. */
  lemma {:induction false} SplitTail(s: string, sep: char)
    requires sep in s
    ensures var k := |Split(s, sep)[0]|; k < |s| && Split(s, sep)[1..] == Split(s[k + 1..], sep)
    decreases |s|
  {
    if s[0] != sep {
      SplitTail(s[1..], sep);
      var rest := Split(s[1..], sep);
      assert s[1..][|rest[0]| + 1..] == s[|rest[0]| + 2..];
    }
  }
}
