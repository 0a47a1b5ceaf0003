/**
 * `prepare_fspath` and the node-id split: how a pytest node id or file
 * path becomes the short label the reporter draws.
 */
module Paths {
  import opened Wrappers

  /** A `"::"` starts at index `i` of `s`. */
  predicate SepAt(s: string, i: int) {
    0 <= i && i + 1 < |s| && s[i] == ':' && s[i + 1] == ':'
  }

  /** `s.split('::', 1)`: the text before the first `"::"` and, if there is one, the text after it. */
  function SplitSep(s: string): (r: (string, Option<string>))
    ensures |r.0| <= |s|
  {
    if |s| < 2 then (s, None)
    else if s[0] == ':' && s[1] == ':' then ([], Some(s[2..]))
    else
      var rest := SplitSep(s[1..]);
      ([s[0]] + rest.0, rest.1)
  }

  /**
   * The split is at the first `"::"`: without one the whole text comes
   * back alone; with one, the text is the head, `"::"` and the tail, and
   * the head holds no `"::"`.
   */
  lemma {:induction false} SplitSepSpec(s: string)
    ensures var r := SplitSep(s); r.1.None? ==> r.0 == s && forall i :: !SepAt(s, i)
    ensures var r := SplitSep(s); r.1.Some? ==> s == r.0 + "::" + r.1.value
    ensures var r := SplitSep(s); r.1.Some? ==> forall i :: 0 <= i < |r.0| ==> !SepAt(s, i)
  {
    if |s| >= 2 && !(s[0] == ':' && s[1] == ':') {
      SplitSepSpec(s[1..]);
      assert forall i :: 1 <= i ==> (SepAt(s, i) <==> SepAt(s[1..], i - 1));
    }
  }

  /** `nodeid.split("::")[0]`: the file part of a node id, a prefix that ends at the first `"::"` if there is one. */
  function FilePart(nodeid: string): (f: string)
    ensures |f| <= |nodeid| && f == nodeid[..|f|]
    ensures |f| < |nodeid| ==> SepAt(nodeid, |f|)
  {
    SplitSepSpec(nodeid);
    var r := SplitSep(nodeid);
    assert r.1.Some? ==> nodeid[..|r.0|] == r.0 && nodeid[|r.0|..|r.0| + 2] == "::";
    r.0
  }

  /** `os.path.basename` on a POSIX path: the text after the last `'/'`. */
  function Basename(s: string): (b: string)
    ensures |b| <= |s|
  {
    if s == [] then []
    else if s[|s| - 1] == '/' then []
    else Basename(s[..|s| - 1]) + [s[|s| - 1]]
  }

  /** The basename is a suffix of the path with no `'/'`, and a `'/'` comes just before it unless it is the whole path. */
  lemma {:induction false} BasenameSpec(s: string)
    ensures var b := Basename(s); '/' !in b && b == s[|s| - |b|..]
    ensures var b := Basename(s); |b| < |s| ==> s[|s| - |b| - 1] == '/'
  {
    if s != [] && s[|s| - 1] != '/' {
      var n := |s|;
      var p := s[..n - 1];
      BasenameSpec(p);
      var bp := Basename(p);
      assert Basename(s) == bp + [s[n - 1]];
      assert bp == s[n - 1 - |bp|..n - 1];
      assert s[n - 1 - |bp|..] == s[n - 1 - |bp|..n - 1] + [s[n - 1]];
      if |bp| < |p| {
        assert s[n - |bp| - 2] == p[|p| - |bp| - 1];
      }
    }
  }

  /** Index of the last `'.'` of `s`, or -1. */
  function LastDot(s: string): (i: int)
    ensures -1 <= i < |s|
  {
    if s == [] then -1
    else if s[|s| - 1] == '.' then |s| - 1
    else LastDot(s[..|s| - 1])
  }

  /** `LastDot` finds a dot, and no dot comes after it. */
  lemma {:induction false} LastDotSpec(s: string)
    ensures LastDot(s) >= 0 ==> s[LastDot(s)] == '.'
    ensures forall j :: LastDot(s) < j < |s| ==> s[j] != '.'
  {
    if s != [] && s[|s| - 1] != '.' {
      LastDotSpec(s[..|s| - 1]);
    }
  }

  predicate AllDots(s: string) {
    forall j :: 0 <= j < |s| ==> s[j] == '.'
  }

  /**
   * `os.path.splitext(name)[0]` for a name without `'/'`: the text before
   * the last `'.'`, unless only dots precede it (a leading-dot name has no
   * extension).
   */
  function Stem(name: string): (r: string)
    ensures |r| <= |name| && r == name[..|r|]
    ensures |r| < |name| ==> name[|r|] == '.'
  {
    LastDotSpec(name);
    var i := LastDot(name);
    if i > 0 && !AllDots(name[..i]) then name[..i] else name
  }

  /** The character substitutions applied last: `_` and `-` become `|`, `[` becomes `▄`, `]` becomes `▀`. */
  function Glyph(c: char): char {
    if c == '_' || c == '-' then '|'
    else if c == '[' then '\U{2584}'
    else if c == ']' then '\U{2580}'
    else c
  }

  const Forbidden: set<char> := {'_', '-', '[', ']'}

  /** The four chained `str.replace` calls. */
  function Clean(s: string): (r: string)
    ensures |r| == |s|
  {
    if s == [] then [] else [Glyph(s[0])] + Clean(s[1..])
  }

  /** Every character is substituted on its own, in place. */
  lemma {:induction false} CleanSpec(s: string)
    ensures forall i :: 0 <= i < |s| ==> Clean(s)[i] == Glyph(s[i])
  {
    if s != [] {
      CleanSpec(s[1..]);
    }
  }

  /** The leading `"test_"` removed once. */
  function StripTest(name: string): (r: string)
    ensures name == "test_" + r <==> |name| >= 5 && name[..5] == "test_"
    ensures !(|name| >= 5 && name[..5] == "test_") ==> r == name
  {
    if |name| >= 5 && name[..5] == "test_" then name[5..] else name
  }

  /** The separator drawn between a file's stem and the rest of a node id. */
  const Joint: char := '\U{2592}'

  /** `NeoTerminalReporter.prepare_fspath`: the label is never longer than the path. */
  function PrepareFspath(path: string): (r: string)
    ensures |r| <= |path|
  {
    SplitSepSpec(Basename(path));
    var parts := SplitSep(Basename(path));
    var name := StripTest(Stem(parts.0));
    var joined := if parts.1.Some? then name + [Joint] + parts.1.value else name;
    Clean(joined)
  }
}

module PathLemmas {
  import opened Wrappers
  import opened Paths

  predicate Avoids(s: string, bad: char) {
    forall k :: 0 <= k < |s| ==> s[k] != bad
  }

  /** A path whose last component has no `'/'` has that component as its basename. */
  lemma BasenameOfLast(dir: string, b: string)
    requires Avoids(b, '/')
    ensures Basename(dir + "/" + b) == b
  {
    var path := dir + "/" + b;
    var r := Basename(path);
    BasenameSpec(path);
    assert path[|dir|] == '/';
    assert path[|dir| + 1..] == b;
    if |r| < |b| {
      assert false;
    }
    assert '/' !in r;
    assert |r| == |b|;
  }

  /** Splitting the file part again changes nothing: it holds no `"::"`. */
  lemma FilePartIdempotent(nodeid: string)
    ensures FilePart(FilePart(nodeid)) == FilePart(nodeid)
  {
    var f := FilePart(nodeid);
    var r := SplitSep(f);
    SplitSepSpec(nodeid);
    SplitSepSpec(f);
    if r.1.Some? {
      assert SepAt(f, |r.0|);
      assert SepAt(nodeid, |r.0|);
      assert false;
    }
  }

  /** A name without `':'` holds no `"::"`. */
  lemma {:induction false} NoColonNoSep(s: string)
    requires Avoids(s, ':')
    ensures SplitSep(s) == (s, None)
  {
    if |s| >= 2 {
      NoColonNoSep(s[1..]);
      assert [s[0]] + s[1..] == s;
    }
  }

  /** Nothing of a name without dots is taken for an extension. */
  lemma NoDotStem(name: string)
    requires Avoids(name, '.')
    ensures Stem(name) == name
  {
    LastDotSpec(name);
  }

  /** The label never shows `_`, `-`, `[` or `]`: they are all substituted. */
  lemma PrepareFspathSubstitutes(path: string)
    ensures forall c :: c in PrepareFspath(path) ==> c !in Forbidden
  {
    var parts := SplitSep(Basename(path));
    var name := StripTest(Stem(parts.0));
    var joined := if parts.1.Some? then name + [Joint] + parts.1.value else name;
    CleanSpec(joined);
  }

  /** The extension after the last dot goes; the part before it stays. */
  lemma StemDropsExtension(front: string, ext: string)
    requires |front| > 0 && front[0] != '.' && Avoids(ext, '.')
    ensures Stem(front + "." + ext) == front
  {
    var b := front + "." + ext;
    var i := |front|;
    assert b[i] == '.';
    forall j | i < j < |b| ensures b[j] != '.' {
      assert b[j] == ext[j - i - 1];
    }
    LastDotSpec(b);
    assert LastDot(b) == i;
    assert b[..i] == front;
    assert !AllDots(b[..i]) by { assert b[..i][0] != '.'; }
  }

  lemma AvoidsJoin(a: string, b: string, c: string, bad: char)
    requires Avoids(a, bad) && Avoids(b, bad) && Avoids(c, bad)
    ensures Avoids(a + b + c, bad)
  {
    var s := a + b + c;
    forall k | 0 <= k < |s| ensures s[k] != bad {
      if k < |a| { assert s[k] == a[k]; }
      else if k < |a| + |b| { assert s[k] == b[k - |a|]; }
      else { assert s[k] == c[k - |a| - |b|]; }
    }
  }

  /**
   * For `dir/test_<name>.<ext>` the label is `<name>` with its characters
   * substituted: the `"test_"` prefix goes, once, and the extension goes.
   * A name that itself starts with `"test_"` keeps that second prefix
   * (as `"test|"`).
   */
  lemma {:induction false} StripsTestPrefixOnce(dir: string, name: string, ext: string)
    requires Avoids(name, '/') && Avoids(name, ':') && Avoids(name, '.')
    requires Avoids(ext, '/') && Avoids(ext, ':') && Avoids(ext, '.')
    ensures PrepareFspath(dir + "/test_" + name + "." + ext) == Clean(name)
    ensures |name| >= 5 && name[..5] == "test_" ==>
              PrepareFspath(dir + "/test_" + name + "." + ext)[..5] == "test|"
  {
    var front := "test_" + name;
    var b := front + "." + ext;
    var path := dir + "/test_" + name + "." + ext;
    assert path == dir + "/" + b;
    AvoidsJoin("test_", name, ".", '/');
    AvoidsJoin("test_", name, ".", ':');
    AvoidsJoin(front, ".", ext, '/');
    AvoidsJoin(front, ".", ext, ':');
    assert "test_" + name + "." == front + ".";
    BasenameOfLast(dir, b);
    NoColonNoSep(b);
    StemDropsExtension(front, ext);
    assert front[..5] == "test_";
    assert StripTest(front) == name;
    assert PrepareFspath(path) == Clean(StripTest(Stem(b)));
    if |name| >= 5 && name[..5] == "test_" {
      CleanedTestPrefix(name);
    }
  }

  /** A second `"test_"` survives, drawn as `"test|"`. */
  lemma CleanedTestPrefix(name: string)
    requires |name| >= 5 && name[..5] == "test_"
    ensures Clean(name)[..5] == "test|"
  {
    var c := Clean(name);
    CleanSpec(name);
    forall i | 0 <= i < 5 ensures c[i] == "test|"[i] {
      assert name[i] == name[..5][i] == "test_"[i];
    }
  }

  /** `Glyph` never produces the joint, and keeps it. */
  lemma GlyphJoint(c: char)
    ensures Glyph(c) == Joint <==> c == Joint
  {
  }

  /** The pieces of a path's label: every one of them is a substring of the path. */
  lemma {:induction false} PiecesAvoid(path: string, c: char)
    requires Avoids(path, c)
    ensures var parts := SplitSep(Basename(path));
            Avoids(StripTest(Stem(parts.0)), c) && (parts.1.Some? ==> Avoids(parts.1.value, c))
  {
    var b := Basename(path);
    BasenameSpec(path);
    assert Avoids(b, c) by {
      forall k | 0 <= k < |b| ensures b[k] != c {
        assert b[k] == path[|path| - |b| + k];
      }
    }
    var parts := SplitSep(b);
    SplitSepSpec(b);
    assert Avoids(parts.0, c) by {
      forall k | 0 <= k < |parts.0| ensures parts.0[k] != c {
        if parts.1.Some? { assert parts.0[k] == b[k]; }
      }
    }
    if parts.1.Some? {
      var tail := parts.1.value;
      assert Avoids(tail, c) by {
        forall k | 0 <= k < |tail| ensures tail[k] != c {
          assert tail[k] == b[|parts.0| + 2 + k];
        }
      }
    }
    var stem := Stem(parts.0);
    assert Avoids(stem, c) by {
      forall k | 0 <= k < |stem| ensures stem[k] != c {
        assert stem[k] == parts.0[k];
      }
    }
    var name := StripTest(stem);
    assert Avoids(name, c) by {
      forall k | 0 <= k < |name| ensures name[k] != c {
        if |stem| >= 5 && stem[..5] == "test_" { assert name[k] == stem[k + 5]; }
      }
    }
  }

  /** Cleaning a joint-free text around one joint leaves exactly that joint. */
  lemma {:induction false} CleanAroundJoint(name: string, tail: string)
    requires Avoids(name, Joint) && Avoids(tail, Joint)
    ensures var r := Clean(name + [Joint] + tail);
            r[|name|] == Joint &&
            forall j :: 0 <= j < |r| && r[j] == Joint ==> j == |name| && r[j + 1..] == Clean(tail)
  {
    var joined := name + [Joint] + tail;
    var r := Clean(joined);
    CleanSpec(joined);
    CleanSpec(tail);
    GlyphJoint(Joint);
    assert joined[|name|] == Joint;
    forall j | 0 <= j < |r| && r[j] == Joint ensures j == |name| && r[j + 1..] == Clean(tail) {
      GlyphJoint(joined[j]);
      assert j == |name|;
      assert |r[j + 1..]| == |Clean(tail)|;
      forall k | 0 <= k < |tail| ensures r[j + 1..][k] == Clean(tail)[k] {
        assert joined[j + 1 + k] == tail[k];
      }
    }
  }

  /**
   * When the last path component holds a `"::"`, the label carries one
   * `'▒'`, and what follows it is the cleaned text after the first `"::"`.
   * Without a `"::"` (and no `'▒'` in the path) the label has no `'▒'`.
   */
  lemma {:induction false} JointFollowsFirstSep(path: string)
    requires Avoids(path, Joint)
    ensures var b := Basename(path);
            (Joint in PrepareFspath(path) <==> exists i :: SepAt(b, i))
    ensures var b := Basename(path); var r := PrepareFspath(path);
            SplitSep(b).1.Some? ==>
              forall j :: 0 <= j < |r| && r[j] == Joint ==> r[j + 1..] == Clean(SplitSep(b).1.value)
  {
    var b := Basename(path);
    var parts := SplitSep(b);
    SplitSepSpec(b);
    var name := StripTest(Stem(parts.0));
    PiecesAvoid(path, Joint);
    var r := PrepareFspath(path);
    if parts.1.Some? {
      CleanAroundJoint(name, parts.1.value);
      assert r == Clean(name + [Joint] + parts.1.value);
      assert SepAt(b, |parts.0|);
    } else {
      assert r == Clean(name);
      CleanSpec(name);
      forall j | 0 <= j < |r| ensures r[j] != Joint {
        GlyphJoint(name[j]);
      }
    }
  }
}
