/**
 * The Go standard-library helpers the core calls on strings and paths:
 * `strings.Contains`, `strings.Split` (with the one-character separator the
 * core uses), `strings.TrimSpace` and `filepath.Base` (Unix, separator '/').
 */
module GoStrings {

  /** `sub` starts at offset `i` of `s`. */
  predicate OccursAt(s: string, sub: string, i: int) {
    0 <= i && i + |sub| <= |s| && s[i..i + |sub|] == sub
  }

  predicate IsPrefix(p: string, s: string) {
    |p| <= |s| && s[..|p|] == p
  }

  /** strings.Contains: true when `sub` occurs somewhere in `s` (the empty string occurs everywhere). */
  function Contains(s: string, sub: string): (r: bool)
    ensures r <==> exists i :: OccursAt(s, sub, i)
  {
    if IsPrefix(sub, s) then
      assert OccursAt(s, sub, 0);
      true
    else if s == [] then
      false
    else
      var r := Contains(s[1..], sub);
      assert forall i :: OccursAt(s[1..], sub, i) ==> OccursAt(s, sub, i + 1);
      assert forall i :: OccursAt(s, sub, i) && i > 0 ==> OccursAt(s[1..], sub, i - 1);
      r
  }

  /** Occurrence is transitive: a string that contains `t` contains everything `t` contains. */
  lemma ContainsTransitive(s: string, t: string, u: string)
    requires Contains(s, t) && Contains(t, u)
    ensures Contains(s, u)
  {
    var i :| OccursAt(s, t, i);
    var j :| OccursAt(t, u, j);
    assert forall k :: 0 <= k < |u| ==> u[k] == t[j + k] == s[i + j + k];
    assert s[i + j..i + j + |u|] == u;
    assert OccursAt(s, u, i + j);
  }

  /**
   * strings.Join with a one-character separator (a non-empty list of parts;
   * Split never produces an empty one).
   */
  function Join(parts: seq<string>, sep: char): string
    requires |parts| >= 1
  {
    if |parts| == 1 then parts[0] else parts[0] + [sep] + Join(parts[1..], sep)
  }

  /**
   * strings.Split with a one-character separator: the maximal pieces of `s`
   * between separators; "" splits into [""] and "a,,b" into ["a", "", "b"].
   */
  function Split(s: string, sep: char): (r: seq<string>)
    ensures |r| >= 1
    ensures forall k :: 0 <= k < |r| ==> sep !in r[k]
    ensures Join(r, sep) == s
  {
    if s == [] then
      [""]
    else
      var rest := Split(s[1..], sep);
      if s[0] == sep then
        [""] + rest
      else
        assert Join([[s[0]] + rest[0]] + rest[1..], sep) == [s[0]] + Join(rest, sep);
        [[s[0]] + rest[0]] + rest[1..]
  }

  /** Splitting undoes joining: pieces free of the separator come back unchanged. */
  lemma {:induction false} SplitJoin(parts: seq<string>, sep: char)
    requires |parts| >= 1
    requires forall k :: 0 <= k < |parts| ==> sep !in parts[k]
    ensures Split(Join(parts, sep), sep) == parts
  {
    if |parts| == 1 {
      SplitPiece(parts[0], sep, []);
    } else {
      SplitJoin(parts[1..], sep);
      SplitPiece(parts[0], sep, Join(parts[1..], sep));
    }
  }

  /** A separator-free piece followed by a separator and `t` splits into that piece and the split of `t`. */
  lemma {:induction false} SplitPiece(p: string, sep: char, t: string)
    requires sep !in p
    ensures Split(p + [sep] + t, sep) == [p] + Split(t, sep)
    ensures Split(p, sep) == [p]
  {
    if p == [] {
      assert p + [sep] + t == [sep] + t;
      assert ([sep] + t)[1..] == t;
    } else {
      assert (p + [sep] + t)[1..] == p[1..] + [sep] + t;
      SplitPiece(p[1..], sep, t);
      assert p[0] != sep;
      assert [p[0]] + p[1..] == p;
    }
  }

  /** unicode.IsSpace: the characters with the Unicode White_Space property. */
  predicate IsSpace(c: char) {
    c == '\t' || c == '\n' || c == '\U{000B}' || c == '\U{000C}' || c == '\r' || c == ' '
    || c == '\U{0085}' || c == '\U{00A0}' || c == '\U{1680}'
    || ('\U{2000}' <= c <= '\U{200A}')
    || c == '\U{2028}' || c == '\U{2029}' || c == '\U{202F}' || c == '\U{205F}' || c == '\U{3000}'
  }

  /** `s` without its leading white space. */
  function TrimLeft(s: string): string
  {
    if s != [] && IsSpace(s[0]) then TrimLeft(s[1..]) else s
  }

  /** `s` without its trailing white space. */
  function TrimRight(s: string): string
  {
    if s != [] && IsSpace(s[|s| - 1]) then TrimRight(s[..|s| - 1]) else s
  }

  lemma {:induction false} TrimLeftIsSuffix(s: string)
    ensures var r := TrimLeft(s);
            && |r| <= |s| && r == s[|s| - |r|..]
            && (forall k :: 0 <= k < |s| - |r| ==> IsSpace(s[k]))
            && (r == [] || !IsSpace(r[0]))
  {
    if s != [] && IsSpace(s[0]) {
      var t := s[1..];
      TrimLeftIsSuffix(t);
      var r := TrimLeft(t);
      assert TrimLeft(s) == r;
      assert r == t[|t| - |r|..] == s[|s| - |r|..];
      forall k | 0 <= k < |s| - |r|
        ensures IsSpace(s[k])
      {
        if k > 0 {
          assert s[k] == t[k - 1];
        }
      }
    }
  }

  lemma {:induction false} TrimRightIsPrefix(s: string)
    ensures var r := TrimRight(s);
            && |r| <= |s| && r == s[..|r|]
            && (forall k :: |r| <= k < |s| ==> IsSpace(s[k]))
            && (r == [] || !IsSpace(r[|r| - 1]))
  {
    if s != [] && IsSpace(s[|s| - 1]) {
      var t := s[..|s| - 1];
      TrimRightIsPrefix(t);
      var r := TrimRight(t);
      assert TrimRight(s) == r;
      assert r == t[..|r|] == s[..|r|];
      forall k | |r| <= k < |s|
        ensures IsSpace(s[k])
      {
        if k < |t| {
          assert s[k] == t[k];
        }
      }
    }
  }

  /** `r` is `s[i..]` cut short, and everything of `s` around it is white space. */
  predicate TrimmedAt(s: string, r: string, i: int) {
    0 <= i <= |s| - |r| && s[i..i + |r|] == r
    && (forall k :: 0 <= k < i ==> IsSpace(s[k]))
    && (forall k :: i + |r| <= k < |s| ==> IsSpace(s[k]))
  }

  /** strings.TrimSpace: `s` without its leading and trailing white space. */
  function TrimSpace(s: string): string
  {
    TrimRight(TrimLeft(s))
  }

  /**
   * What TrimSpace computes: a contiguous slice of `s`, everything cut off is
   * white space, and the result neither starts nor ends with white space.
   */
  lemma TrimSpaceTrims(s: string)
    ensures var r := TrimSpace(s);
            && (exists i :: TrimmedAt(s, r, i))
            && (r == [] || (!IsSpace(r[0]) && !IsSpace(r[|r| - 1])))
  {
    var l := TrimLeft(s);
    var r := TrimRight(l);
    TrimLeftIsSuffix(s);
    TrimRightIsPrefix(l);
    var i := |s| - |l|;
    assert r == TrimSpace(s);
    if r != [] {
      assert r[0] == l[0];
      assert !IsSpace(l[0]);
    }
    assert s[i..i + |r|] == r;
    assert forall k :: i + |r| <= k < |s| ==> s[k] == l[k - i];
    assert TrimmedAt(s, r, i);
  }

  /** Trimming is idempotent. */
  lemma TrimSpaceIdempotent(s: string)
    ensures TrimSpace(TrimSpace(s)) == TrimSpace(s)
  {
    var t := TrimSpace(s);
    TrimSpaceTrims(s);
    TrimSpaceUnchanged(t);
  }

  /** A string with no white space at either end is left as it is. */
  lemma TrimSpaceUnchanged(s: string)
    requires s == [] || (!IsSpace(s[0]) && !IsSpace(s[|s| - 1]))
    ensures TrimSpace(s) == s
  {
    assert TrimLeft(s) == s;
    assert TrimRight(s) == s;
  }

  /** Leading white space makes no difference to TrimLeft. */
  lemma {:induction false} TrimLeftSkipsSpace(pad: string, t: string)
    requires forall k :: 0 <= k < |pad| ==> IsSpace(pad[k])
    ensures TrimLeft(pad + t) == TrimLeft(t)
  {
    if pad == [] {
      assert pad + t == t;
    } else {
      assert (pad + t)[1..] == pad[1..] + t;
      TrimLeftSkipsSpace(pad[1..], t);
    }
  }

  /** Trailing white space makes no difference to TrimRight. */
  lemma {:induction false} TrimRightSkipsSpace(t: string, pad: string)
    requires forall k :: 0 <= k < |pad| ==> IsSpace(pad[k])
    ensures TrimRight(t + pad) == TrimRight(t)
  {
    if pad == [] {
      assert t + pad == t;
    } else {
      assert (t + pad)[..|t + pad| - 1] == t + pad[..|pad| - 1];
      TrimRightSkipsSpace(t, pad[..|pad| - 1]);
    }
  }

  /** Trimming a padded word gives the word back. */
  lemma PaddedTrim(pad1: string, word: string, pad2: string)
    requires forall k :: 0 <= k < |pad1| ==> IsSpace(pad1[k])
    requires forall k :: 0 <= k < |pad2| ==> IsSpace(pad2[k])
    requires word != [] && !IsSpace(word[0]) && !IsSpace(word[|word| - 1])
    ensures TrimSpace(pad1 + word + pad2) == word
  {
    assert pad1 + word + pad2 == pad1 + (word + pad2);
    TrimLeftSkipsSpace(pad1, word + pad2);
    assert TrimLeft(word + pad2) == word + pad2;
    TrimRightSkipsSpace(word, pad2);
    assert TrimRight(word) == word;
  }

  /** `p` without its trailing '/' characters. */
  function StripTrailingSlashes(p: string): string
  {
    if p != [] && p[|p| - 1] == '/' then StripTrailingSlashes(p[..|p| - 1]) else p
  }

  /** The part of `p` after its last '/' (all of `p` when it has none). */
  function LastElement(p: string): string
  {
    if p == [] || p[|p| - 1] == '/' then [] else LastElement(p[..|p| - 1]) + [p[|p| - 1]]
  }

  /**
   * What StripTrailingSlashes and LastElement compute. These are lemmas rather
   * than postconditions so that their slices are only in scope where a proof
   * asks for them.
   */
  lemma {:induction false} StripTrailingSlashesIsPrefix(p: string)
    ensures var r := StripTrailingSlashes(p);
            && |r| <= |p| && r == p[..|r|]
            && (r == [] || r[|r| - 1] != '/')
            && (forall k :: |r| <= k < |p| ==> p[k] == '/')
  {
    if p != [] && p[|p| - 1] == '/' {
      StripTrailingSlashesIsPrefix(p[..|p| - 1]);
    }
  }

  lemma {:induction false} LastElementIsSuffix(p: string)
    ensures var r := LastElement(p);
            && |r| <= |p| && r == p[|p| - |r|..]
            && '/' !in r
            && (|r| < |p| ==> p[|p| - |r| - 1] == '/')
  {
    if !(p == [] || p[|p| - 1] == '/') {
      LastElementIsSuffix(p[..|p| - 1]);
    }
  }

  /**
   * filepath.Base on Unix: the last element of `path` after trailing slashes
   * are removed; "." for the empty path and "/" for a path of slashes only.
   */
  function Base(path: string): (r: string)
    ensures r != []
    ensures r == "/" || '/' !in r
    ensures path == [] ==> r == "."
  {
    if path == [] then "."
    else
      var e := LastElement(StripTrailingSlashes(path));
      LastElementIsSuffix(StripTrailingSlashes(path));
      if e == [] then "/" else e
  }

  /** The base of `dir/name` is `name`, whatever the directory part. */
  lemma BaseOfChild(dir: string, name: string)
    requires name != [] && '/' !in name
    ensures Base(dir + "/" + name) == name
  {
    var p := dir + "/" + name;
    assert p[|p| - 1] == name[|name| - 1];
    assert StripTrailingSlashes(p) == p;
    LastElementOfChild(dir, name);
  }

  lemma {:induction false} LastElementOfChild(dir: string, name: string)
    requires '/' !in name
    ensures LastElement(dir + "/" + name) == name
  {
    var p := dir + "/" + name;
    if name == [] {
      assert p[|p| - 1] == '/';
    } else {
      var q := name[..|name| - 1];
      assert p[..|p| - 1] == dir + "/" + q;
      assert p[|p| - 1] == name[|name| - 1];
      LastElementOfChild(dir, q);
      assert q + [name[|name| - 1]] == name;
    }
  }

  /** Trailing slashes do not change the base of a non-empty path. */
  lemma BaseIgnoresTrailingSlash(path: string)
    requires path != []
    ensures Base(path + "/") == Base(path)
  {
    var p := path + "/";
    assert p[..|p| - 1] == path;
    assert StripTrailingSlashes(p) == StripTrailingSlashes(path);
  }
}
