/**
 * The distribution packager (package_for_distribution.py): which paths the
 * copy leaves out, and the yes/no confirmation prompt. The copying itself,
 * the archive and the generated text files are file-system work outside the model.
 */
module Packaging {
  import opened Text

  /** The exclusion list; a `*` in a pattern is dropped, not treated as a wildcard. */
  const EXCLUDE_PATTERNS: seq<string> :=
    ["__pycache__", "*.pyc", "*.pyo", ".DS_Store", "Thumbs.db", "*.log", ".env", "local_settings.py"]

  /** The text a pattern is searched for as: the pattern with every `*` removed. */
  function Needle(pattern: string): (r: string)
    ensures '*' !in r
    ensures '*' !in pattern ==> r == pattern
    ensures forall x :: x != '*' ==> multiset(r)[x] == multiset(pattern)[x]
  {
    RemoveChar(pattern, '*')
  }

  /** `should_exclude` over a pattern list: some pattern's needle occurs anywhere in the path. */
  function Excluded(patterns: seq<string>, path: string): (r: bool)
    ensures r <==> exists i :: 0 <= i < |patterns| && Contains(path, Needle(patterns[i]))
  {
    if patterns == [] then false
    else
      var rest := Excluded(patterns[1..], path);
      assert rest <==> exists i :: 1 <= i < |patterns| && Contains(path, Needle(patterns[i])) by {
        if rest {
          var i :| 0 <= i < |patterns[1..]| && Contains(path, Needle(patterns[1..][i]));
          assert patterns[i + 1] == patterns[1..][i];
        }
        if exists i :: 1 <= i < |patterns| && Contains(path, Needle(patterns[i])) {
          var i :| 1 <= i < |patterns| && Contains(path, Needle(patterns[i]));
          assert patterns[1..][i - 1] == patterns[i];
        }
      }
      Contains(path, Needle(patterns[0])) || rest
  }

  function ShouldExclude(path: string): bool {
    Excluded(EXCLUDE_PATTERNS, path)
  }

  /** Matching is by substring, so a path that contains an excluded path is excluded too. */
  lemma {:induction false} ExcludedUpward(patterns: seq<string>, part: string, path: string)
    requires Excluded(patterns, part) && Contains(path, part)
    ensures Excluded(patterns, path)
  {
    var i :| 0 <= i < |patterns| && Contains(part, Needle(patterns[i]));
    ContainsTransitive(Needle(patterns[i]), part, path);
  }

  /** `*.pyc` is no suffix match: `.pyc` anywhere in a path, even mid-name, excludes it. */
  lemma PycAnywhere(before: string, after: string)
    ensures ShouldExclude(before + ".pyc" + after)
  {
    var path := before + ".pyc" + after;
    assert Needle(EXCLUDE_PATTERNS[1]) == ".pyc" by {
      assert "*.pyc"[1..] == ".pyc";
    }
    assert path[|before|..|before| + 4] == ".pyc";
    assert OccursAt(path, Needle(EXCLUDE_PATTERNS[1]), |before|);
  }

  /** `os.path.join(a, b)` on POSIX for two components. */
  function PathJoin(a: string, b: string): (r: string)
    ensures Contains(r, b)
    ensures (b == [] || b[0] != '/') ==> Contains(r, a)
    ensures b != [] && b[0] == '/' ==> r == b
  {
    if b != [] && b[0] == '/' then
      assert OccursAt(b, b, 0);
      b
    else
      var r := if a == [] || a[|a| - 1] == '/' then a + b else a + "/" + b;
      assert OccursAt(r, a, 0);
      assert OccursAt(r, b, |r| - |b|);
      r
  }

  /**
   * `ignore_patterns(dir, files)`: the names the copy leaves out of one
   * directory, in listing order; the packager passes `EXCLUDE_PATTERNS`.
   */
  function IgnoreNames(patterns: seq<string>, dir: string, files: seq<string>): (r: seq<string>)
    ensures |r| <= |files|
    ensures forall f :: f in r <==> f in files && Excluded(patterns, PathJoin(dir, f))
  {
    if files == [] then []
    else
      var rest := IgnoreNames(patterns, dir, files[1..]);
      if Excluded(patterns, PathJoin(dir, files[0])) then [files[0]] + rest else rest
  }

  /** Inside an excluded directory every (relative) name is left out. */
  lemma {:induction false} ExcludedDirIgnoresAll(patterns: seq<string>, dir: string, files: seq<string>)
    requires Excluded(patterns, dir)
    requires forall k :: 0 <= k < |files| ==> files[k] == [] || files[k][0] != '/'
    ensures IgnoreNames(patterns, dir, files) == files
  {
    if files != [] {
      ExcludedUpward(patterns, dir, PathJoin(dir, files[0]));
      ExcludedDirIgnoresAll(patterns, dir, files[1..]);
      assert files == [files[0]] + files[1..];
    }
  }

  /** A name holding an excluded needle is left out of whatever directory it is in. */
  lemma NameDecides(patterns: seq<string>, dir: string, f: string, i: int)
    requires 0 <= i < |patterns| && Contains(f, Needle(patterns[i]))
    ensures Excluded(patterns, PathJoin(dir, f))
  {
    ContainsTransitive(Needle(patterns[i]), f, PathJoin(dir, f));
  }

  /** The prompt's answer `input(...).lower().strip()` accepts `yes` or `y`. */
  function Confirm(answer: string): (r: bool)
    ensures r <==> Strip(Lower(answer)) in {"yes", "y"}
  {
    var a := Strip(Lower(answer));
    a == "yes" || a == "y"
  }

  lemma {:induction false} LowerAppend(a: string, b: string)
    ensures Lower(a + b) == Lower(a) + Lower(b)
  {
    var l, r := Lower(a + b), Lower(a) + Lower(b);
    assert |l| == |r|;
    forall i | 0 <= i < |l| ensures l[i] == r[i] {
      if i < |a| { assert (a + b)[i] == a[i]; } else { assert (a + b)[i] == b[i - |a|]; }
    }
  }

  lemma LowerKeepsSpace(w: string)
    requires AllSpace(w)
    ensures Lower(w) == w
  {
    forall i | 0 <= i < |w| ensures Lower(w)[i] == w[i] {
      assert IsSpace(w[i]);
    }
  }

  /** Whitespace typed around the answer does not change the decision. */
  lemma ConfirmIgnoresSurroundingSpace(w1: string, s: string, w2: string)
    requires AllSpace(w1) && AllSpace(w2)
    ensures Confirm(w1 + s + w2) == Confirm(s)
  {
    LowerAppend(w1 + s, w2);
    LowerAppend(w1, s);
    LowerKeepsSpace(w1);
    LowerKeepsSpace(w2);
    StripIgnoresSurroundingSpace(w1, Lower(s), w2);
  }

  lemma LowerIdempotent(s: string)
    ensures Lower(Lower(s)) == Lower(s)
  {
    forall i | 0 <= i < |s| ensures Lower(Lower(s))[i] == Lower(s)[i] {
      assert Lower(Lower(s))[i] == LowerChar(LowerChar(s[i]));
    }
  }

  /** Letter case never matters: an answer is accepted exactly when its lower-case form is. */
  lemma ConfirmIgnoresCase(s: string)
    ensures Confirm(s) == Confirm(Lower(s))
  {
    LowerIdempotent(s);
  }
}
