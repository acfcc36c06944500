/**
 * String helpers with the exact semantics of the JavaScript and Python
 * built-ins the catalog and the merger use: `trim`/`strip`, ASCII case
 * mapping, `includes`, `startsWith`, `split` on one character, `join`,
 * decimal rendering of numbers and code-point string order.
 */
module Text {

  /** The characters JavaScript's `String.prototype.trim` removes (WhiteSpace and LineTerminator). */
  predicate IsJsSpace(c: char) {
    c == ' ' || c == '\t' || c == '\n' || c == '\r' || c == '\U{000B}' || c == '\U{000C}'
    || c == '\U{00A0}' || c == '\U{1680}' || ('\U{2000}' <= c <= '\U{200A}')
    || c == '\U{2028}' || c == '\U{2029}' || c == '\U{202F}' || c == '\U{205F}'
    || c == '\U{3000}' || c == '\U{FEFF}'
  }

  /** The characters Python's `str.strip()` removes (those for which `str.isspace` holds). */
  predicate IsPySpace(c: char) {
    c == ' ' || ('\t' <= c <= '\r') || ('\U{001C}' <= c <= '\U{001F}')
    || c == '\U{0085}' || c == '\U{00A0}' || c == '\U{1680}' || ('\U{2000}' <= c <= '\U{200A}')
    || c == '\U{2028}' || c == '\U{2029}' || c == '\U{202F}' || c == '\U{205F}' || c == '\U{3000}'
  }

  function TrimStart(s: string, space: char -> bool): (r: string)
    ensures |r| <= |s| && r == s[|s| - |r|..]
    ensures r == [] || !space(r[0])
  {
    if s != [] && space(s[0]) then TrimStart(s[1..], space) else s
  }

  function TrimEnd(s: string, space: char -> bool): (r: string)
    ensures |r| <= |s| && r == s[..|r|]
    ensures r == [] || !space(r[|r| - 1])
  {
    if s != [] && space(s[|s| - 1]) then TrimEnd(s[..|s| - 1], space) else s
  }

  /** JavaScript `s.trim()`. */
  function JsTrim(s: string): string {
    TrimEnd(TrimStart(s, IsJsSpace), IsJsSpace)
  }

  /** Trimming the front leaves nothing exactly when every character is a space. */
  lemma {:induction false} TrimStartEmpty(s: string, space: char -> bool)
    ensures TrimStart(s, space) == [] <==> forall i :: 0 <= i < |s| ==> space(s[i])
    decreases |s|
  {
    if s != [] && space(s[0]) {
      TrimStartEmpty(s[1..], space);
      assert forall i :: 1 <= i < |s| ==> s[i] == s[1..][i - 1];
    }
  }

  /** Trimming the end of a string that starts with a non-space leaves something. */
  lemma {:induction false} TrimEndKeepsFront(s: string, space: char -> bool)
    requires s != [] && !space(s[0])
    ensures TrimEnd(s, space) != []
    decreases |s|
  {
    if space(s[|s| - 1]) {
      assert |s| > 1;
      TrimEndKeepsFront(s[..|s| - 1], space);
    }
  }

  /** `s.trim()` is empty exactly when `s` is made of white space only. */
  lemma JsTrimEmpty(s: string)
    ensures JsTrim(s) == [] <==> forall i :: 0 <= i < |s| ==> IsJsSpace(s[i])
  {
    TrimStartEmpty(s, IsJsSpace);
    var t := TrimStart(s, IsJsSpace);
    if t != [] {
      TrimEndKeepsFront(t, IsJsSpace);
    }
  }

  /** Python `s.strip()`. */
  function PyStrip(s: string): string {
    TrimEnd(TrimStart(s, IsPySpace), IsPySpace)
  }

  predicate IsUpper(c: char) { 'A' <= c <= 'Z' }
  predicate IsLower(c: char) { 'a' <= c <= 'z' }
  predicate IsDigit(c: char) { '0' <= c <= '9' }
  predicate IsAlnum(c: char) { IsUpper(c) || IsLower(c) || IsDigit(c) }

  function LowerChar(c: char): (l: char)
    ensures !IsUpper(l)
    ensures IsAlnum(c) <==> IsAlnum(l)
  {
    if IsUpper(c) then (c as int + 32) as char else c
  }

  function UpperChar(c: char): (u: char)
    ensures !IsLower(u)
  {
    if IsLower(c) then (c as int - 32) as char else c
  }

  /** `toLowerCase()` / `lower()` restricted to the ASCII letters. */
  function Lower(s: string): (r: string)
    ensures |r| == |s|
    ensures forall i :: 0 <= i < |s| ==> r[i] == LowerChar(s[i])
  {
    seq(|s|, i requires 0 <= i < |s| => LowerChar(s[i]))
  }

  /** `s.startsWith(p)`. */
  predicate StartsWith(s: string, p: string) {
    |p| <= |s| && s[..|p|] == p
  }

  /** `s.includes(sub)`: `sub` occurs at some position of `s`. */
  predicate Contains(s: string, sub: string)
    decreases |s|
  {
    StartsWith(s, sub) || (s != [] && Contains(s[1..], sub))
  }

  /** `sub` occurs in `s` starting at position `k`. */
  predicate OccursAt(s: string, sub: string, k: nat) {
    k + |sub| <= |s| && s[k..k + |sub|] == sub
  }

  lemma {:induction false} ContainsAt(s: string, sub: string, k: nat)
    requires OccursAt(s, sub, k)
    ensures Contains(s, sub)
    decreases k
  {
    if k > 0 {
      assert s[1..][k - 1..k - 1 + |sub|] == s[k..k + |sub|];
      assert OccursAt(s[1..], sub, k - 1);
      ContainsAt(s[1..], sub, k - 1);
    } else {
      assert s[..|sub|] == s[0..0 + |sub|];
    }
  }

  lemma {:induction false} ContainsFindsPosition(s: string, sub: string)
    requires Contains(s, sub)
    ensures exists k: nat :: OccursAt(s, sub, k)
    decreases |s|
  {
    if !StartsWith(s, sub) {
      ContainsFindsPosition(s[1..], sub);
      var k: nat :| OccursAt(s[1..], sub, k);
      assert s[1..][k..k + |sub|] == s[k + 1..k + 1 + |sub|];
      assert OccursAt(s, sub, k + 1);
    } else {
      assert s[0..0 + |sub|] == s[..|sub|];
      assert OccursAt(s, sub, 0);
    }
  }

  /** `Contains` means "occurs at some position", which is what `includes` promises. */
  lemma ContainsIffOccurs(s: string, sub: string)
    ensures Contains(s, sub) <==> exists k: nat :: OccursAt(s, sub, k)
  {
    if Contains(s, sub) {
      ContainsFindsPosition(s, sub);
    }
    if exists k: nat :: OccursAt(s, sub, k) {
      var k: nat :| OccursAt(s, sub, k);
      ContainsAt(s, sub, k);
    }
  }

  /** `s.replace(/c/g, '')`: every occurrence of `c` removed. */
  function Without(s: string, c: char): (r: string)
    ensures |r| <= |s|
    ensures c !in r
    ensures forall d :: d in r ==> d in s
  {
    if s == [] then [] else (if s[0] == c then [] else [s[0]]) + Without(s[1..], c)
  }

  /** `s.split(sep)` for a one-character separator, as JavaScript and Python define it. */
  function Split(s: string, sep: char): (parts: seq<string>)
    ensures |parts| >= 1
    ensures forall p :: p in parts ==> sep !in p
    decreases |s|
  {
    if s == [] then [""]
    else
      var rest := Split(s[1..], sep);
      if s[0] == sep then [""] + rest else [[s[0]] + rest[0]] + rest[1..]
  }

  /** `parts.join(sep)`. */
  function Join(parts: seq<string>, sep: string): string {
    if parts == [] then ""
    else if |parts| == 1 then parts[0]
    else parts[0] + sep + Join(parts[1..], sep)
  }

  /** Joining the pieces of a split gives the original string back. */
  lemma {:induction false} JoinSplit(s: string, sep: char)
    ensures Join(Split(s, sep), [sep]) == s
    decreases |s|
  {
    if s != [] {
      JoinSplit(s[1..], sep);
      var rest := Split(s[1..], sep);
      if s[0] == sep {
        assert Split(s, sep) == [""] + rest;
        assert Join([""] + rest, [sep]) == "" + [sep] + Join(rest, [sep]);
      } else {
        var parts := Split(s, sep);
        assert parts == [[s[0]] + rest[0]] + rest[1..];
        if |rest| == 1 {
          assert Join(parts, [sep]) == [s[0]] + rest[0];
        } else {
          assert Join(rest, [sep]) == rest[0] + [sep] + Join(rest[1..], [sep]);
          assert parts[1..] == rest[1..];
          assert Join(parts, [sep]) == [s[0]] + rest[0] + [sep] + Join(rest[1..], [sep]);
        }
      }
    }
  }

  lemma {:induction false} SplitAppendSep(p: string, sep: char, rest: string)
    requires sep !in p
    ensures Split(p + [sep] + rest, sep) == [p] + Split(rest, sep)
    decreases |p|
  {
    if p == [] {
      assert p + [sep] + rest == [sep] + rest;
      assert ([sep] + rest)[1..] == rest;
    } else {
      assert (p + [sep] + rest)[1..] == p[1..] + [sep] + rest;
      SplitAppendSep(p[1..], sep, rest);
      assert [p[0]] + p[1..] == p;
    }
  }

  lemma {:induction false} SplitNoSep(p: string, sep: char)
    requires sep !in p
    ensures Split(p, sep) == [p]
    decreases |p|
  {
    if p != [] {
      SplitNoSep(p[1..], sep);
      assert [p[0]] + p[1..] == p;
    }
  }

  /** Splitting a join of separator-free pieces gives the pieces back. */
  lemma {:induction false} SplitJoin(parts: seq<string>, sep: char)
    requires |parts| >= 1
    requires forall p :: p in parts ==> sep !in p
    ensures Split(Join(parts, [sep]), sep) == parts
    decreases |parts|
  {
    if |parts| == 1 {
      SplitNoSep(parts[0], sep);
    } else {
      SplitJoin(parts[1..], sep);
      SplitAppendSep(parts[0], sep, Join(parts[1..], [sep]));
      assert [parts[0]] + parts[1..] == parts;
    }
  }

  /** Lexicographic order on code points (`<=` on Python strings; the model's stand-in for `localeCompare`). */
  predicate LexLe(a: string, b: string)
    decreases |a|
  {
    a == [] || (b != [] && (a[0] < b[0] || (a[0] == b[0] && LexLe(a[1..], b[1..]))))
  }

  lemma {:induction false} LexLeTotal(a: string, b: string)
    ensures LexLe(a, b) || LexLe(b, a)
    decreases |a|
  {
    if a != [] && b != [] && a[0] == b[0] {
      LexLeTotal(a[1..], b[1..]);
    }
  }

  lemma {:induction false} LexLeTransitive(a: string, b: string, c: string)
    requires LexLe(a, b) && LexLe(b, c)
    ensures LexLe(a, c)
    decreases |a|
  {
    if a != [] && a[0] == b[0] && b[0] == c[0] {
      LexLeTransitive(a[1..], b[1..], c[1..]);
    }
  }

  lemma {:induction false} LexLeAntisymmetric(a: string, b: string)
    requires LexLe(a, b) && LexLe(b, a)
    ensures a == b
    decreases |a|
  {
    if a != [] {
      LexLeAntisymmetric(a[1..], b[1..]);
      assert a == [a[0]] + a[1..] && b == [b[0]] + b[1..];
    }
  }

  function DigitChar(d: nat): char
    requires d < 10
  {
    ('0' as int + d) as char
  }

  /** The decimal rendering of a non-negative integer, as `String(n)` gives it. */
  function NatToString(n: nat): (s: string)
    ensures |s| >= 1
    ensures forall c :: c in s ==> IsDigit(c)
    decreases n
  {
    if n < 10 then [DigitChar(n)] else NatToString(n / 10) + [DigitChar(n % 10)]
  }

  /** `String(i)` for an integer. */
  function IntToString(i: int): (s: string)
    ensures |s| >= 1
  {
    if i < 0 then "-" + NatToString(-i) else NatToString(i)
  }
}
