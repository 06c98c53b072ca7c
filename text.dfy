/** The few Python string and path built-ins the core relies on, on `seq<char>`:
    `str.lower`, `str.strip`, `str.startswith`/`endswith`, `in` on strings,
    slicing `s[:n]`, `str.join`, `os.path.basename`, `os.path.join`, `sorted`. */
module Text {

  /** `str.lower` on the ASCII letters; every other character is kept. */
  function LowerChar(c: char): char {
    if 'A' <= c <= 'Z' then (c as int - 'A' as int + 'a' as int) as char else c
  }

  function Lower(s: string): (r: string)
    ensures |r| == |s|
    ensures forall i :: 0 <= i < |s| ==> r[i] == LowerChar(s[i])
  {
    seq(|s|, i requires 0 <= i < |s| => LowerChar(s[i]))
  }

  /** The characters for which Python's `str.isspace` holds. */
  predicate IsSpace(c: char) {
    c == ' ' || ('\t' <= c <= '\r') || ('\U{1c}' <= c <= '\U{1f}')
    || c == '\U{85}' || c == '\U{a0}' || c == '\U{1680}'
    || ('\U{2000}' <= c <= '\U{200a}')
    || c == '\U{2028}' || c == '\U{2029}' || c == '\U{202f}' || c == '\U{205f}' || c == '\U{3000}'
  }

  predicate IsBlank(s: string) {
    forall i :: 0 <= i < |s| ==> IsSpace(s[i])
  }

  lemma BlankConcat(a: string, b: string)
    ensures IsBlank(a + b) <==> IsBlank(a) && IsBlank(b)
  {
    if IsBlank(a + b) {
      forall i | 0 <= i < |a| ensures IsSpace(a[i]) { assert a[i] == (a + b)[i]; }
      forall i | 0 <= i < |b| ensures IsSpace(b[i]) { assert b[i] == (a + b)[|a| + i]; }
    }
    if IsBlank(a) && IsBlank(b) {
      forall i | 0 <= i < |a + b| ensures IsSpace((a + b)[i]) {
        if i < |a| { assert (a + b)[i] == a[i]; } else { assert (a + b)[i] == b[i - |a|]; }
      }
    }
  }

  /** Drops leading whitespace: the result is a suffix of `s` and all that was dropped is blank. */
  function TrimStart(s: string): (r: string)
    ensures |r| <= |s| && r == s[|s| - |r|..]
    ensures IsBlank(s[..|s| - |r|])
    ensures r == [] || !IsSpace(r[0])
  {
    if s != [] && IsSpace(s[0]) then
      var r := TrimStart(s[1..]);
      assert s[..|s| - |r|] == [s[0]] + s[1..][..|s[1..]| - |r|];
      r
    else s
  }

  /** Drops trailing whitespace: the result is a prefix of `s` and all that was dropped is blank. */
  function TrimEnd(s: string): (r: string)
    ensures |r| <= |s| && r == s[..|r|]
    ensures IsBlank(s[|r|..])
    ensures r == [] || !IsSpace(r[|r| - 1])
  {
    if s != [] && IsSpace(s[|s| - 1]) then
      var r := TrimEnd(s[..|s| - 1]);
      assert s[|r|..] == s[..|s| - 1][|r|..] + [s[|s| - 1]];
      r
    else s
  }

  /** Python's `str.strip()` with no argument: `TrimStart(s)`, the suffix of `s` after its
      leading whitespace, without its blank tail. */
  function Strip(s: string): (r: string)
    ensures |r| <= |s|
    ensures |r| <= |TrimStart(s)| && r == TrimStart(s)[..|r|]
    ensures IsBlank(TrimStart(s)[|r|..])
    ensures r == [] <==> IsBlank(s)
    ensures r == [] || (!IsSpace(r[0]) && !IsSpace(r[|r| - 1]))
  {
    var t := TrimStart(s);
    var r := TrimEnd(t);
    StripParts(s, t, r);
    r
  }

  /** Why stripping is empty exactly for blank text: what the two trims drop is blank. */
  lemma StripParts(s: string, t: string, r: string)
    requires |t| <= |s| && t == s[|s| - |t|..] && IsBlank(s[..|s| - |t|]) && (t == [] || !IsSpace(t[0]))
    requires |r| <= |t| && r == t[..|r|] && IsBlank(t[|r|..]) && (r == [] || !IsSpace(r[|r| - 1]))
    ensures r == [] <==> IsBlank(s)
    ensures r == [] || (!IsSpace(r[0]) && !IsSpace(r[|r| - 1]))
  {
    var lead := s[..|s| - |t|];
    assert s == lead + t;
    BlankConcat(lead, t);
    if r == [] {
      assert t[|r|..] == t;
    } else {
      assert r[0] == t[0];
    }
    if IsBlank(s) {
      assert IsBlank(t);
    }
  }

  lemma StripIdempotent(s: string)
    ensures Strip(Strip(s)) == Strip(s)
  {
    var r := Strip(s);
    if r != [] {
      assert TrimStart(r) == r;
      assert TrimEnd(r) == r;
    }
  }

  predicate StartsWith(s: string, p: string) {
    |p| <= |s| && s[..|p|] == p
  }

  predicate EndsWith(s: string, x: string) {
    |x| <= |s| && s[|s| - |x|..] == x
  }

  /** `s.endswith(tuple)`: some suffix in `xs` matches. */
  predicate EndsWithAny(s: string, xs: seq<string>) {
    exists i :: 0 <= i < |xs| && EndsWith(s, xs[i])
  }

  /** A tuple with one more suffix in front. */
  lemma EndsWithAnyCons(s: string, x: string, xs: seq<string>)
    ensures EndsWithAny(s, [x] + xs) <==> EndsWith(s, x) || EndsWithAny(s, xs)
  {
    var ys := [x] + xs;
    assert ys[0] == x;
    if EndsWithAny(s, ys) {
      var i :| 0 <= i < |ys| && EndsWith(s, ys[i]);
      if i > 0 { assert ys[i] == xs[i - 1]; }
    }
    if EndsWithAny(s, xs) {
      var i :| 0 <= i < |xs| && EndsWith(s, xs[i]);
      assert ys[i + 1] == xs[i];
    }
  }

  /** Python's `sub in s`. */
  predicate Contains(s: string, sub: string) {
    exists i :: 0 <= i <= |s| && StartsWith(s[i..], sub)
  }

  /** Python's `s[:n]` for a non-negative `n`. */
  function Prefix(s: string, n: nat): (r: string)
    ensures |r| == if n <= |s| then n else |s|
    ensures StartsWith(s, r)
  {
    if n <= |s| then s[..n] else s
  }

  /** `os.path.basename`: the longest suffix without a '/'. */
  function Basename(p: string): (r: string)
    ensures '/' !in r
    ensures EndsWith(p, r)
    ensures |r| < |p| ==> p[|p| - |r| - 1] == '/'
  {
    if p == [] || p[|p| - 1] == '/' then [] else Basename(p[..|p| - 1]) + [p[|p| - 1]]
  }

  /** `os.path.join(dir, name)` for two components (POSIX rules). */
  function Join(dir: string, name: string): string {
    if StartsWith(name, "/") then name
    else if dir == [] || dir[|dir| - 1] == '/' then dir + name
    else dir + "/" + name
  }

  /** A directory entry joined to any directory has that entry as its base name. */
  lemma BasenameOfJoin(dir: string, name: string)
    requires '/' !in name
    ensures Basename(Join(dir, name)) == name
  {
    var p := Join(dir, name);
    assert |name| >= 1 ==> name[..1] == [name[0]] && name[0] != '/';
    assert EndsWith(p, name);
    assert |name| < |p| ==> p[|p| - |name| - 1] == '/';
    var r := Basename(p);
    forall k | |p| - |name| <= k < |p| ensures p[k] != '/' {
      assert p[k] == name[k - (|p| - |name|)];
    }
    forall k | |p| - |r| <= k < |p| ensures p[k] != '/' {
      assert p[k] == r[k - (|p| - |r|)];
    }
    assert |r| == |name|;
    assert r == p[|p| - |r|..] == name;
  }

  /** `sep.join(parts)`. */
  function JoinWith(sep: string, parts: seq<string>): string {
    if parts == [] then []
    else if |parts| == 1 then parts[0]
    else parts[0] + sep + JoinWith(sep, parts[1..])
  }

  /** `s.split(c)` for a one-character separator. */
  function SplitOn(c: char, s: string): (r: seq<string>)
    ensures |r| >= 1
  {
    if s == [] then [[]]
    else if s[0] == c then [[]] + SplitOn(c, s[1..])
    else
      var rest := SplitOn(c, s[1..]);
      [[s[0]] + rest[0]] + rest[1..]
  }

  lemma {:induction false} SplitOnPiece(c: char, x: string, rest: string)
    requires c !in x
    ensures SplitOn(c, x + [c] + rest) == [x] + SplitOn(c, rest)
    ensures SplitOn(c, x) == [x]
  {
    if x != [] {
      SplitOnPiece(c, x[1..], rest);
      assert (x + [c] + rest)[1..] == x[1..] + [c] + rest;
      assert [x[0]] + x[1..] == x;
    } else {
      assert x + [c] + rest == [c] + rest;
    }
  }

  /** Splitting a join on its one-character separator gives the parts back. */
  lemma {:induction false} SplitJoinRoundTrip(c: char, parts: seq<string>)
    requires |parts| >= 1
    requires forall i :: 0 <= i < |parts| ==> c !in parts[i]
    ensures SplitOn(c, JoinWith([c], parts)) == parts
  {
    if |parts| == 1 {
      SplitOnPiece(c, parts[0], []);
    } else {
      SplitJoinRoundTrip(c, parts[1..]);
      SplitOnPiece(c, parts[0], JoinWith([c], parts[1..]));
      assert parts == [parts[0]] + parts[1..];
    }
  }

  function DigitChar(d: nat): char
    requires d < 10
  {
    ('0' as int + d) as char
  }

  /** `str(n)` for a natural number. */
  function NatToString(n: nat): string {
    if n < 10 then [DigitChar(n)] else NatToString(n / 10) + [DigitChar(n % 10)]
  }

  /** `str(b)` / `f"{b}"` for a Python bool. */
  function ShowBool(b: bool): string {
    if b then "True" else "False"
  }

  /** Python's `<=` on strings: lexicographic by code point. */
  predicate LexLe(a: string, b: string) {
    |a| == 0 || (|b| != 0 && (a[0] < b[0] || (a[0] == b[0] && LexLe(a[1..], b[1..]))))
  }

  lemma LexLeTotal(a: string, b: string)
    ensures LexLe(a, b) || LexLe(b, a)
  {
    if |a| != 0 && |b| != 0 && a[0] == b[0] { LexLeTotal(a[1..], b[1..]); }
  }

  lemma LexLeTrans(a: string, b: string, c: string)
    requires LexLe(a, b) && LexLe(b, c)
    ensures LexLe(a, c)
  {
    if |a| != 0 && |b| != 0 && |c| != 0 && a[0] == b[0] == c[0] {
      LexLeTrans(a[1..], b[1..], c[1..]);
    }
  }

  predicate IsSorted(s: seq<string>) {
    forall i, j :: 0 <= i < j < |s| ==> LexLe(s[i], s[j])
  }

  function InsertSorted(x: string, s: seq<string>): (r: seq<string>)
    requires IsSorted(s)
    ensures IsSorted(r)
    ensures multiset(r) == multiset(s) + multiset{x}
  {
    if s == [] then [x]
    else if LexLe(x, s[0]) then
      forall j | 0 <= j < |s| ensures LexLe(x, s[j]) {
        if j > 0 { LexLeTrans(x, s[0], s[j]); }
      }
      [x] + s
    else
      LexLeTotal(x, s[0]);
      var t := InsertSorted(x, s[1..]);
      assert s == [s[0]] + s[1..];
      assert forall k :: 0 <= k < |t| ==> t[k] in multiset(s[1..]) + multiset{x};
      forall k | 0 <= k < |t| ensures LexLe(s[0], t[k]) {
        assert t[k] in multiset(s[1..]) + multiset{x};
        if t[k] != x {
          assert t[k] in s[1..];
          var m :| 0 <= m < |s[1..]| && s[1..][m] == t[k];
          assert s[m + 1] == t[k];
        }
      }
      [s[0]] + t
  }

  /** Python's `sorted` on a list of strings. */
  function SortStrings(s: seq<string>): (r: seq<string>)
    ensures IsSorted(r)
    ensures multiset(r) == multiset(s)
  {
    if s == [] then []
    else
      assert s == [s[0]] + s[1..];
      InsertSorted(s[0], SortStrings(s[1..]))
  }
}
