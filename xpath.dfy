/**
 * The xpath strings of `eml.py`: `_get_node` builds `'./' + '/'.join(path)`
 * from a tag path, and `show_overview` turns such a string back into a path
 * with `replace('./', '')` followed by `split('/')`.
 */
module Xpath {
  import opened Wrappers

  /** `'/'.join(segments)`. */
  function Join(segments: seq<string>): string
  {
    if segments == [] then ""
    else if |segments| == 1 then segments[0]
    else segments[0] + "/" + Join(segments[1..])
  }

  /** `s.split('/')`: never empty, and no piece holds a separator. */
  function Split(s: string): (pieces: seq<string>)
    ensures |pieces| >= 1
    ensures forall i | 0 <= i < |pieces| :: '/' !in pieces[i]
  {
    if s == [] then [""]
    else if s[0] == '/' then [""] + Split(s[1..])
    else var rest := Split(s[1..]); [[s[0]] + rest[0]] + rest[1..]
  }

  /** `s.replace('./', '')`: each `./`, scanning left to right without overlap, removed. */
  function StripDotSlash(s: string): string
  {
    if |s| < 2 then s
    else if s[0] == '.' && s[1] == '/' then StripDotSlash(s[2..])
    else [s[0]] + StripDotSlash(s[1..])
  }

  /** The xpath `_get_node` builds from a tag path. */
  function Build(path: seq<string>): string
  {
    "./" + Join(path)
  }

  /** `xpath.startswith('./')`. */
  predicate StartsRelative(xpath: string)
  {
    |xpath| >= 2 && xpath[0] == '.' && xpath[1] == '/'
  }

  /**
   * The segments `show_overview` looks up for a string xpath; `None` when its
   * assertion that the xpath starts with `./` fails.
   */
  function Parse(xpath: string): (segments: Option<seq<string>>)
    ensures segments.Some? <==> StartsRelative(xpath)
    ensures segments.Some? ==>
      |segments.value| >= 1 && forall i | 0 <= i < |segments.value| :: '/' !in segments.value[i]
  {
    if StartsRelative(xpath) then Some(Split(StripDotSlash(xpath))) else None
  }

  /** A segment that survives the build-then-parse round trip inside a path. */
  predicate PlainSegment(segment: string)
  {
    '/' !in segment && (segment == [] || segment[|segment| - 1] != '.')
  }

  // ---------------------------------------------------------------------------
  // Split and Join
  // ---------------------------------------------------------------------------

  lemma {:induction false} SplitWithoutSeparator(s: string)
    requires '/' !in s
    ensures Split(s) == [s]
  {
    if s != [] {
      SplitWithoutSeparator(s[1..]);
      assert [s[0]] + s[1..] == s;
    }
  }

  lemma {:induction false} SplitAfterSegment(a: string, s: string)
    requires '/' !in a
    ensures Split(a + "/" + s) == [a] + Split(s)
  {
    var whole := a + "/" + s;
    if a == [] {
      assert whole == "/" + s && whole[1..] == s;
    } else {
      assert whole[0] == a[0] && whole[1..] == a[1..] + "/" + s;
      SplitAfterSegment(a[1..], s);
      assert [a[0]] + a[1..] == a;
    }
  }

  /** A final `/` and separator-free piece adds one last segment. */
  lemma {:induction false} SplitChild(p: string, s: string)
    requires '/' !in s
    ensures Split(p + "/" + s) == Split(p) + [s]
  {
    var whole := p + "/" + s;
    if p == [] {
      assert whole == "/" + s && whole[1..] == s;
      SplitWithoutSeparator(s);
    } else {
      assert whole[0] == p[0] && whole[1..] == p[1..] + "/" + s;
      SplitChild(p[1..], s);
    }
  }

  /** Splitting what was joined gives back the segments when none holds a `/`. */
  lemma {:induction false} SplitJoin(segments: seq<string>)
    requires segments != []
    requires forall i | 0 <= i < |segments| :: '/' !in segments[i]
    ensures Split(Join(segments)) == segments
  {
    if |segments| == 1 {
      SplitWithoutSeparator(segments[0]);
    } else {
      SplitJoin(segments[1..]);
      SplitAfterSegment(segments[0], Join(segments[1..]));
      assert [segments[0]] + segments[1..] == segments;
    }
  }

  /** Putting a character in front of the first piece puts it in front of the joined string. */
  lemma JoinPrepend(c: char, pieces: seq<string>)
    requires pieces != []
    ensures Join([[c] + pieces[0]] + pieces[1..]) == [c] + Join(pieces)
  {
    var longer := [[c] + pieces[0]] + pieces[1..];
    if |pieces| > 1 {
      assert longer[1..] == pieces[1..];
    }
  }

  /** Joining what was split always gives back the string. */
  lemma {:induction false} JoinSplit(s: string)
    ensures Join(Split(s)) == s
  {
    if s != [] {
      var rest := Split(s[1..]);
      JoinSplit(s[1..]);
      if s[0] == '/' {
        assert ([""] + rest)[1..] == rest;
        assert s == "/" + s[1..];
      } else {
        JoinPrepend(s[0], rest);
        assert s == [s[0]] + s[1..];
      }
    }
  }

  // ---------------------------------------------------------------------------
  // Removing "./"
  // ---------------------------------------------------------------------------

  lemma {:induction false} StripWithoutSeparator(s: string)
    requires '/' !in s
    ensures StripDotSlash(s) == s
  {
    if |s| >= 2 {
      StripWithoutSeparator(s[1..]);
      assert [s[0]] + s[1..] == s;
    }
  }

  /** A first character that does not start a `./` is kept. */
  lemma StripCons(c: char, t: string)
    requires c != '.' || t == [] || t[0] != '/'
    ensures StripDotSlash([c] + t) == [c] + StripDotSlash(t)
  {
    var s := [c] + t;
    assert s[0] == c && s[1..] == t;
    if t != [] {
      assert s[1] == t[0];
    }
  }

  lemma {:induction false} StripAfterSegment(a: string, s: string)
    requires PlainSegment(a)
    ensures StripDotSlash(a + "/" + s) == a + "/" + StripDotSlash(s)
  {
    if a == [] {
      StripCons('/', s);
      assert a + "/" + s == ['/'] + s;
    } else {
      var rest := a[1..];
      assert a == [a[0]] + rest;
      assert a + "/" + s == [a[0]] + (rest + "/" + s);
      assert PlainSegment(rest) by {
        if rest != [] {
          assert rest[|rest| - 1] == a[|a| - 1];
        }
      }
      assert (rest + "/" + s)[0] != '/' || a[0] != '.' by {
        if rest != [] {
          assert (rest + "/" + s)[0] == rest[0] == a[1];
        }
      }
      StripCons(a[0], rest + "/" + s);
      StripAfterSegment(rest, s);
    }
  }

  lemma {:induction false} StripJoin(segments: seq<string>)
    requires forall i | 0 <= i < |segments| :: PlainSegment(segments[i])
    ensures StripDotSlash(Join(segments)) == Join(segments)
  {
    if |segments| == 1 {
      StripWithoutSeparator(segments[0]);
    } else if |segments| > 1 {
      StripJoin(segments[1..]);
      StripAfterSegment(segments[0], Join(segments[1..]));
    }
  }

  // ---------------------------------------------------------------------------
  // The round trip
  // ---------------------------------------------------------------------------

  /**
   * Parsing the xpath built from a non-empty path gives the path back when no
   * segment holds a `/` or ends with a `.`.
   */
  lemma {:induction false} ParseBuild(path: seq<string>)
    requires path != []
    requires forall i | 0 <= i < |path| :: PlainSegment(path[i])
    ensures Parse(Build(path)) == Some(path)
  {
    var x := Build(path);
    assert x[0] == '.' && x[1] == '/' && x[2..] == Join(path);
    StripJoin(path);
    SplitJoin(path);
  }

  /** A segment ending in `.` is not given back: `./a./b` parses as `ab`. */
  lemma ParseBuildDotSegment()
    ensures Build(["a.", "b"]) == "./a./b"
    ensures Parse(Build(["a.", "b"])) == Some(["ab"])
  {
    assert Build(["a.", "b"]) == "./a./b";
    assert StripDotSlash("./a./b") == "ab" by {
      assert "./a./b"[2..] == "a./b";
      assert "a./b"[1..] == "./b";
      assert "./b"[2..] == "b";
    }
    assert Split("ab") == ["ab"] by {
      SplitWithoutSeparator("ab");
    }
  }

  /** The empty path is not given back either: `./` parses as one empty segment. */
  lemma ParseBuildEmpty()
    ensures Parse(Build([])) == Some([""])
  {
    assert Build([]) == "./";
    assert StripDotSlash("./") == "" by {
      assert "./"[2..] == "";
    }
  }
}
