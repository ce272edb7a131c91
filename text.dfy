/** String operations with the meaning JavaScript and Node give them: the `\s`
    character class, case mapping, `startsWith`/`includes`, `path.basename` and
    `path.extname`, the `replace(/R+/g, '-')` chains that build slugs, and
    `split`/`join`. Case mapping covers the ASCII letters only. */
module Text {

  /** JavaScript's `\s`: the WhiteSpace and LineTerminator code points of ECMA-262. */
  predicate IsSpace(c: char) {
    || c == ' ' || c == '\t' || c == '\n' || c == '\r' || c == '\U{B}' || c == '\U{C}'
    || c == '\U{A0}' || c == '\U{1680}' || ('\U{2000}' <= c <= '\U{200A}')
    || c == '\U{2028}' || c == '\U{2029}' || c == '\U{202F}' || c == '\U{205F}'
    || c == '\U{3000}' || c == '\U{FEFF}'
  }

  predicate NoSpace(s: string) {
    forall i :: 0 <= i < |s| ==> !IsSpace(s[i])
  }

  predicate IsUpperAscii(c: char) { 'A' <= c <= 'Z' }

  predicate IsLowerAscii(c: char) { 'a' <= c <= 'z' }

  function LowerChar(c: char): char {
    if IsUpperAscii(c) then (c as int + 32) as char else c
  }

  function UpperChar(c: char): char {
    if IsLowerAscii(c) then (c as int - 32) as char else c
  }

  /** `s.toLowerCase()`. */
  function Lower(s: string): (r: string)
    ensures |r| == |s|
    ensures forall i :: 0 <= i < |s| ==> r[i] == LowerChar(s[i])
  {
    if s == [] then [] else [LowerChar(s[0])] + Lower(s[1..])
  }

  lemma LowerConcat(a: string, b: string)
    ensures Lower(a + b) == Lower(a) + Lower(b)
  {
    assert forall i :: 0 <= i < |a + b| ==> Lower(a + b)[i] == (Lower(a) + Lower(b))[i];
  }

  /** `s.startsWith(prefix)`. */
  predicate StartsWith(s: string, prefix: string) {
    |prefix| <= |s| && s[..|prefix|] == prefix
  }

  /** `s.includes(part)`. */
  predicate Contains(s: string, part: string) {
    exists i :: 0 <= i <= |s| && StartsWith(s[i..], part)
  }

  /** `s` with `a` replaced by `b` everywhere. */
  function ReplaceChar(s: string, a: char, b: char): (r: string)
    ensures |r| == |s|
    ensures forall i :: 0 <= i < |s| ==> r[i] == (if s[i] == a then b else s[i])
  {
    if s == [] then [] else [if s[0] == a then b else s[0]] + ReplaceChar(s[1..], a, b)
  }

  /** `s` without its longest prefix of characters satisfying `skip`. */
  function SkipWhile(s: string, skip: char -> bool): (r: string)
    ensures |r| <= |s| && r == s[|s| - |r|..]
    ensures r == [] || !skip(r[0])
    ensures s != [] && skip(s[0]) ==> |r| < |s|
    ensures forall i :: 0 <= i < |s| - |r| ==> skip(s[i])
  {
    if s != [] && skip(s[0]) then
      var r := SkipWhile(s[1..], skip);
      assert s[1..][|s| - 1 - |r|..] == s[|s| - |r|..];
      assert forall i :: 1 <= i < |s| - |r| ==> s[i] == s[1..][i - 1];
      r
    else s
  }

  /** `s.replace(/[R]+/g, '-')` for the character class `inRun`: each maximal run
      of class characters becomes one `-`. */
  function CollapseRuns(s: string, inRun: char -> bool): (r: string)
    ensures s != [] && !inRun(s[0]) ==> r != [] && r[0] == s[0]
    ensures forall i :: 0 <= i < |r| ==> r[i] == '-' || (r[i] in s && !inRun(r[i]))
    ensures !inRun('-') ==> forall i :: 0 <= i < |r| ==> !inRun(r[i])
    decreases |s|
  {
    if s == [] then []
    else if inRun(s[0]) then
      var t := SkipWhile(s, inRun);
      assert forall c :: c in t ==> c in s;
      "-" + CollapseRuns(t, inRun)
    else
      assert forall c :: c in s[1..] ==> c in s;
      [s[0]] + CollapseRuns(s[1..], inRun)
  }

  predicate NoDoubleDash(s: string) {
    forall i :: 0 <= i < |s| - 1 ==> !(s[i] == '-' && s[i + 1] == '-')
  }

  /** Collapsing runs of a class without `-` in text without `-` never puts two `-` side by side. */
  lemma {:induction false} CollapseNoDoubleDash(s: string, inRun: char -> bool)
    requires !inRun('-') && forall i :: 0 <= i < |s| ==> s[i] != '-'
    ensures NoDoubleDash(CollapseRuns(s, inRun))
    decreases |s|
  {
    if s != [] {
      if inRun(s[0]) {
        var t := SkipWhile(s, inRun);
        assert forall i :: 0 <= i < |t| ==> t[i] == s[|s| - |t| + i];
        CollapseNoDoubleDash(t, inRun);
        var rest := CollapseRuns(t, inRun);
        assert rest == [] || rest[0] == t[0];
        ConsNoDoubleDash('-', rest);
        assert CollapseRuns(s, inRun) == ['-'] + rest;
      } else {
        var tail := s[1..];
        assert forall i :: 0 <= i < |tail| ==> tail[i] == s[i + 1];
        CollapseNoDoubleDash(tail, inRun);
        ConsNoDoubleDash(s[0], CollapseRuns(tail, inRun));
      }
    }
  }

  /** Putting a character in front keeps two `-` apart unless both it and the old first character are `-`. */
  lemma ConsNoDoubleDash(c: char, s: string)
    requires NoDoubleDash(s)
    requires c != '-' || s == [] || s[0] != '-'
    ensures NoDoubleDash([c] + s)
  {
    var r := [c] + s;
    forall i | 0 <= i < |r| - 1
      ensures !(r[i] == '-' && r[i + 1] == '-')
    {
      assert r[i + 1] == s[i];
      if i > 0 {
        assert r[i] == s[i - 1];
      }
    }
  }

  /** The slug the category handlers and the filter buttons derive from a name:
      `name.toLowerCase().replace(/\s+/g, '-')`. */
  function CategorySlug(name: string): (r: string)
    ensures NoSpace(r)
  {
    CollapseRuns(Lower(name), IsSpace)
  }

  /** Every whitespace character is a plain space and no two of them are adjacent. */
  predicate SingleSpaced(s: string) {
    forall i :: 0 <= i < |s| && IsSpace(s[i]) ==> s[i] == ' ' && (i + 1 == |s| || !IsSpace(s[i + 1]))
  }

  /** When every run character is a plain space standing alone, collapsing
      runs is replacing each space by `-`. */
  lemma {:induction false} CollapseIsolatedSpaces(s: string, inRun: char -> bool)
    requires inRun(' ')
    requires forall i :: 0 <= i < |s| && inRun(s[i]) ==> s[i] == ' ' && (i + 1 == |s| || !inRun(s[i + 1]))
    ensures CollapseRuns(s, inRun) == ReplaceChar(s, ' ', '-')
  {
    if s != [] {
      forall i | 0 <= i < |s[1..]| && inRun(s[1..][i])
        ensures s[1..][i] == ' ' && (i + 1 == |s[1..]| || !inRun(s[1..][i + 1]))
      {
        assert s[1..][i] == s[i + 1];
      }
      CollapseIsolatedSpaces(s[1..], inRun);
      assert ReplaceChar(s, ' ', '-') == [if s[0] == ' ' then '-' else s[0]] + ReplaceChar(s[1..], ' ', '-');
      if inRun(s[0]) {
        assert SkipWhile(s, inRun) == s[1..] by {
          assert s[1..] == [] || !inRun(s[1..][0]);
        }
      }
    }
  }

  /** On single-spaced text, collapsing whitespace runs is replacing each space by `-`. */
  lemma CollapseSingleSpaces(s: string)
    requires SingleSpaced(s)
    ensures CollapseRuns(s, IsSpace) == ReplaceChar(s, ' ', '-')
  {
    CollapseIsolatedSpaces(s, IsSpace);
  }

  /** Lower-casing keeps text single-spaced: it changes only ASCII letters. */
  lemma LowerKeepsSingleSpaced(s: string)
    requires SingleSpaced(s)
    ensures SingleSpaced(Lower(s))
  {
    var l := Lower(s);
    forall i | 0 <= i < |l| && IsSpace(l[i])
      ensures l[i] == ' ' && (i + 1 == |l| || !IsSpace(l[i + 1]))
    {
      assert l[i] == LowerChar(s[i]);
      if i + 1 < |l| {
        assert l[i + 1] == LowerChar(s[i + 1]);
      }
    }
  }

  /** `s.split(sep)` for a one-character separator; it always yields at least one piece. */
  function SplitOn(s: string, sep: char): (r: seq<string>)
    ensures |r| >= 1
  {
    if s == [] then [""]
    else
      var rest := SplitOn(s[1..], sep);
      if s[0] == sep then [""] + rest else [[s[0]] + rest[0]] + rest[1..]
  }

  /** `ws.join(sep)` for a one-character separator. */
  function JoinWith(ws: seq<string>, sep: char): string {
    if ws == [] then "" else if |ws| == 1 then ws[0] else ws[0] + [sep] + JoinWith(ws[1..], sep)
  }

  /** Joining after an empty first piece starts with the separator. */
  lemma JoinAfterEmpty(rest: seq<string>, b: char)
    requires |rest| >= 1
    ensures JoinWith([""] + rest, b) == [b] + JoinWith(rest, b)
  {
    var w := [""] + rest;
    assert w[0] == "" && w[1..] == rest;
  }

  /** Joining after extending the first piece by `c` prefixes `c`. */
  lemma JoinExtendedFirst(c: char, rest: seq<string>, b: char)
    requires |rest| >= 1
    ensures JoinWith([[c] + rest[0]] + rest[1..], b) == [c] + JoinWith(rest, b)
  {
    var w := [[c] + rest[0]] + rest[1..];
    if |rest| > 1 {
      assert w[1..] == rest[1..];
    }
  }

  /** Splitting on `a` and joining with `b` replaces every `a` by `b`. */
  lemma {:induction false} JoinSplit(s: string, a: char, b: char)
    ensures JoinWith(SplitOn(s, a), b) == ReplaceChar(s, a, b)
  {
    if s != [] {
      var rest := SplitOn(s[1..], a);
      JoinSplit(s[1..], a, b);
      assert ReplaceChar(s, a, b) == [if s[0] == a then b else s[0]] + ReplaceChar(s[1..], a, b);
      if s[0] == a {
        JoinAfterEmpty(rest, b);
      } else {
        JoinExtendedFirst(s[0], rest, b);
      }
    }
  }

  /** `word.charAt(0).toUpperCase() + word.slice(1)`. */
  function Capitalise(w: string): string {
    if w == [] then [] else [UpperChar(w[0])] + w[1..]
  }

  function CapitaliseAll(ws: seq<string>): (r: seq<string>)
    ensures |r| == |ws|
    ensures forall k :: 0 <= k < |ws| ==> r[k] == Capitalise(ws[k])
  {
    if ws == [] then [] else [Capitalise(ws[0])] + CapitaliseAll(ws[1..])
  }

  /** Capitalising the pieces before joining is invisible once the result is lower-cased. */
  lemma {:induction false} LowerJoinCapitalised(ws: seq<string>, sep: char)
    ensures Lower(JoinWith(CapitaliseAll(ws), sep)) == Lower(JoinWith(ws, sep))
  {
    if ws != [] {
      var w := ws[0];
      assert Lower(Capitalise(w)) == Lower(w) by {
        if w != [] {
          LowerConcat([UpperChar(w[0])], w[1..]);
          LowerConcat([w[0]], w[1..]);
          assert w == [w[0]] + w[1..];
        }
      }
      if |ws| > 1 {
        var cs := CapitaliseAll(ws);
        assert cs[1..] == CapitaliseAll(ws[1..]);
        LowerJoinCapitalised(ws[1..], sep);
        LowerConcat(Capitalise(w) + [sep], JoinWith(cs[1..], sep));
        LowerConcat(Capitalise(w), [sep]);
        LowerConcat(w + [sep], JoinWith(ws[1..], sep));
        LowerConcat(w, [sep]);
      }
    }
  }

  /** `s` without its trailing slashes. */
  function StripTrailingSlashes(s: string): (r: string)
    ensures r == [] || r[|r| - 1] != '/'
    ensures |r| <= |s| && r == s[..|r|]
  {
    if s != [] && s[|s| - 1] == '/' then StripTrailingSlashes(s[..|s| - 1]) else s
  }

  /** The part of `s` after its last `/` (all of `s` when it has none). */
  function AfterLastSlash(s: string): (r: string)
    ensures '/' !in r && |r| <= |s|
  {
    if s == [] || s[|s| - 1] == '/' then [] else AfterLastSlash(s[..|s| - 1]) + [s[|s| - 1]]
  }

  /** Node's POSIX `path.basename(path)`. */
  function Basename(path: string): (r: string)
    ensures '/' !in r && |r| <= |path|
  {
    AfterLastSlash(StripTrailingSlashes(path))
  }

  /** The file name a directory path ending in `/` is joined with is its basename. */
  lemma {:induction false} BasenameOfJoin(dir: string, name: string)
    requires dir != [] && dir[|dir| - 1] == '/'
    requires name != [] && '/' !in name
    ensures Basename(dir + name) == name
  {
    assert StripTrailingSlashes(dir + name) == dir + name;
    AfterLastSlashOfJoin(dir, name);
  }

  lemma {:induction false} AfterLastSlashOfJoin(dir: string, name: string)
    requires dir != [] && dir[|dir| - 1] == '/'
    requires '/' !in name
    ensures AfterLastSlash(dir + name) == name
    decreases |name|
  {
    if name == [] {
      assert dir + name == dir;
    } else {
      var n := |name|;
      assert (dir + name)[..|dir + name| - 1] == dir + name[..n - 1];
      assert name[n - 1] in name;
      AfterLastSlashOfJoin(dir, name[..n - 1]);
      assert name == name[..n - 1] + [name[n - 1]];
    }
  }

  /** The index of the last `c` in `s`, or -1. */
  function LastIndexOf(s: string, c: char): (i: int)
    ensures -1 <= i < |s|
    ensures i >= 0 ==> s[i] == c
    ensures forall j :: i < j < |s| ==> s[j] != c
  {
    if s == [] then -1
    else if s[|s| - 1] == c then |s| - 1
    else LastIndexOf(s[..|s| - 1], c)
  }

  /** Node's POSIX `path.extname(path)`: from the last `.` of the basename, unless
      that dot starts the basename or the basename is `..`. */
  function Extname(path: string): (r: string)
    ensures r == [] || (r[0] == '.' && '.' !in r[1..] && '/' !in r && |r| < |Basename(path)|)
  {
    var base := Basename(path);
    var dot := LastIndexOf(base, '.');
    if base == ".." || dot <= 0 then "" else base[dot..]
  }
}
