/** POSIX path strings as Node's `path` module rewrites them, and the components the file system sees. */
module Paths {
  import opened Text

  /** The name of a file or directory. */
  predicate Proper(seg: string) {
    seg != "" && seg != "." && seg != ".." && '/' !in seg
  }

  predicate AllProper(segs: seq<string>) {
    forall seg | seg in segs :: Proper(seg)
  }

  /** One component of a path; `above` says whether a leading `..` may stay. */
  function Move(stack: seq<string>, seg: string, above: bool): seq<string> {
    if seg == "" || seg == "." then stack
    else if seg != ".." then stack + [seg]
    else if stack != [] && stack[|stack| - 1] != ".." then stack[..|stack| - 1]
    else if above then stack + [".."]
    else stack
  }

  function Walk(stack: seq<string>, segs: seq<string>, above: bool): seq<string> {
    if segs == [] then stack else Move(Walk(stack, segs[..|segs| - 1], above), segs[|segs| - 1], above)
  }

  predicate Slashed(s: string) {
    s != "" && s[|s| - 1] == '/'
  }

  predicate Absolute(s: string) {
    s != "" && s[0] == '/'
  }

  /** `path.normalize`. */
  function Normalize(s: string): string {
    if s == "" then "."
    else
      var body := Join(Walk([], Split(s, '/'), !Absolute(s)), "/");
      if body == "" then (if Absolute(s) then "/" else if Slashed(s) then "./" else ".")
      else (if Absolute(s) then "/" else "") + body + (if Slashed(s) then "/" else "")
  }

  /** `path.join` of two parts. */
  function JoinPaths(a: string, b: string): string {
    if a == "" then Normalize(b) else if b == "" then Normalize(a) else Normalize(a + "/" + b)
  }

  /** The components of an absolute path. */
  function Key(p: string): seq<string> {
    Walk([], Split(p, '/'), false)
  }

  /** The absolute path with the given components. */
  function Abs(key: seq<string>): string {
    "/" + Join(key, "/")
  }

  /** Where a relative path leads from an absolute one. */
  function Under(base: seq<string>, rel: string): seq<string> {
    Walk(base, Split(rel, '/'), false)
  }

  predicate StartsWith(s: string, prefix: string) {
    prefix <= s
  }

  // ----- Components -----

  lemma {:induction false} WalkAppend(stack: seq<string>, a: seq<string>, b: seq<string>, above: bool)
    ensures Walk(stack, a + b, above) == Walk(Walk(stack, a, above), b, above)
  {
    if b == [] {
      assert a + b == a;
    } else {
      WalkAppend(stack, a, b[..|b| - 1], above);
      assert (a + b)[..|a + b| - 1] == a + b[..|b| - 1];
    }
  }

  lemma {:induction false} WalkProper(stack: seq<string>, segs: seq<string>, above: bool)
    requires AllProper(segs)
    ensures Walk(stack, segs, above) == stack + segs
  {
    if segs == [] {
      assert stack + segs == stack;
    } else {
      var front, last := segs[..|segs| - 1], segs[|segs| - 1];
      assert last in segs && Proper(last);
      WalkProper(stack, front, above);
      AppendAssociates(stack, front, [last]);
      assert front + [last] == segs;
    }
  }

  /** Walking below the root never leaves it and keeps only names. */
  lemma {:induction false} WalkStaysProper(stack: seq<string>, segs: seq<string>)
    requires AllProper(stack) && forall seg | seg in segs :: '/' !in seg
    ensures AllProper(Walk(stack, segs, false))
  {
    if segs != [] {
      WalkStaysProper(stack, segs[..|segs| - 1]);
    }
  }

  lemma SplitAbs(key: seq<string>)
    requires AllProper(key) && key != []
    ensures Split(Abs(key), '/') == [""] + key
  {
    SplitAppend("", Join(key, "/"), '/');
    assert "" + "/" + Join(key, "/") == Abs(key);
    SplitJoin(key, '/');
  }

  lemma KeyOfAbs(key: seq<string>)
    requires AllProper(key)
    ensures Key(Abs(key)) == key
  {
    if key == [] {
      assert Split("/", '/') == ["", ""];
      assert ["", ""][..1] == [""];
    } else {
      SplitAbs(key);
      WalkAppend([], [""], key, false);
      assert [""][..0] == [];
      WalkProper([], key, false);
    }
  }

  lemma KeyIsProper(p: string)
    ensures AllProper(Key(p))
  {
    WalkStaysProper([], Split(p, '/'));
  }

  // ----- Joining -----

  /** The components of a base with a relative path appended. */
  lemma KeyUnder(base: seq<string>, rel: string)
    requires AllProper(base)
    ensures Key(Abs(base) + "/" + rel) == Under(base, rel) && AllProper(Under(base, rel))
  {
    SplitAppend(Abs(base), rel, '/');
    WalkAppend([], Split(Abs(base), '/'), Split(rel, '/'), false);
    KeyOfAbs(base);
    WalkStaysProper(base, Split(rel, '/'));
  }

  /** One name below a base, with or without a slash before it. */
  lemma UnderOne(base: seq<string>, seg: string)
    requires AllProper(base) && Proper(seg)
    ensures Under(base, seg) == base + [seg] && Under(base, "/" + seg) == base + [seg]
  {
    SplitNone(seg, '/');
    WalkProper(base, [seg], false);
    SplitAppend("", seg, '/');
    assert "" + ['/'] + seg == "/" + seg;
    assert Split("", '/') == [""];
    WalkAppend(base, [""], [seg], false);
    assert Walk(base, [""], false) == Move(Walk(base, [], false), "", false);
  }

  lemma JoinEmpty(key: seq<string>)
    requires AllProper(key)
    ensures Join(key, "/") == "" <==> key == []
  {
    assert key != [] ==> key[0] in key;
  }

  lemma NormalizeAbsolute(p: string)
    requires Absolute(p)
    ensures Normalize(p) == Abs(Key(p)) + if Slashed(p) && Key(p) != [] then "/" else ""
  {
    KeyIsProper(p);
    JoinEmpty(Key(p));
  }

  /** Joining a relative path to an absolute base ends where walking it does. */
  lemma JoinIsUnder(base: seq<string>, rel: string)
    requires AllProper(base)
    ensures AllProper(Under(base, rel))
    ensures JoinPaths(Abs(base), rel) ==
              Abs(Under(base, rel)) + if Slashed(rel) && Under(base, rel) != [] then "/" else ""
  {
    KeyUnder(base, rel);
    if rel == "" {
      assert Split("", '/') == [""] && [""][..0] == [];
      assert Walk(base, [""], false) == Move(Walk(base, [], false), "", false);
      KeyOfAbs(base);
      NormalizeAbsolute(Abs(base));
      AbsNotSlashed(base);
      assert Abs(base) + "" == Abs(base);
    } else {
      var p := Abs(base) + "/" + rel;
      NormalizeAbsolute(p);
      assert Slashed(p) <==> Slashed(rel);
    }
  }

  lemma {:induction false} JoinLast(key: seq<string>)
    requires AllProper(key) && key != []
    ensures Join(key, "/") != "" && Join(key, "/")[|Join(key, "/")| - 1] != '/'
  {
    assert key[0] in key;
    if |key| > 1 {
      JoinLast(key[1..]);
    }
  }

  lemma AbsNotSlashed(key: seq<string>)
    requires AllProper(key)
    ensures Slashed(Abs(key)) <==> key == []
  {
    if key != [] {
      JoinLast(key);
    }
  }

  // ----- What normalising keeps -----

  /** Parts that a walk leaves: names and leading parents. */
  predicate Kept(segs: seq<string>) {
    forall seg | seg in segs :: seg != "" && seg != "." && '/' !in seg
  }

  lemma {:induction false} WalkKeeps(segs: seq<string>)
    requires forall seg | seg in segs :: '/' !in seg
    ensures Kept(Walk([], segs, true))
  {
    if segs != [] {
      var front, last := segs[..|segs| - 1], segs[|segs| - 1];
      assert last in segs && forall seg | seg in front :: seg in segs;
      WalkKeeps(front);
      MoveKeeps(Walk([], front, true), last);
    }
  }

  lemma MoveKeeps(stack: seq<string>, seg: string)
    requires Kept(stack) && '/' !in seg
    ensures Kept(Move(stack, seg, true))
  {
    forall s | s in Move(stack, seg, true)
      ensures s in stack || s == seg || s == ".."
    {
    }
    assert '/' !in "..";
  }

  /** Walking the tidied parts from a directory leads where walking the parts themselves does. */
  lemma {:induction false} TidyLeadsThere(base: seq<string>, segs: seq<string>)
    requires AllProper(base) && forall seg | seg in segs :: '/' !in seg
    ensures Walk(base, Walk([], segs, true), false) == Walk(base, segs, false)
  {
    if segs != [] {
      var front, last := segs[..|segs| - 1], segs[|segs| - 1];
      TidyLeadsThere(base, front);
      WalkKeeps(front);
      WalkStaysProper(base, front);
      MoveLeadsThere(base, Walk([], front, true), last);
    }
  }

  lemma MoveLeadsThere(base: seq<string>, tidy: seq<string>, seg: string)
    requires Kept(tidy) && AllProper(Walk(base, tidy, false)) && AllProper(base)
    ensures Walk(base, Move(tidy, seg, true), false) == Move(Walk(base, tidy, false), seg, false)
  {
    var there := Walk(base, tidy, false);
    if seg == ".." && tidy != [] && tidy[|tidy| - 1] != ".." {
      var front, last := tidy[..|tidy| - 1], tidy[|tidy| - 1];
      assert last in tidy;
      assert there == Walk(base, front, false) + [last];
      assert there[..|there| - 1] == Walk(base, front, false);
    } else if seg != "" && seg != "." {
      assert (tidy + [seg])[..|tidy|] == tidy;
    }
  }

  lemma {:induction false} JoinedIsSplit(segs: seq<string>, slashed: bool, base: seq<string>)
    requires segs != [] && forall seg | seg in segs :: '/' !in seg
    ensures Under(base, Join(segs, "/") + if slashed then "/" else "") == Walk(base, segs, false)
  {
    var s := Join(segs, "/");
    SplitJoin(segs, '/');
    if slashed {
      SplitAppend(s, "", '/');
      assert Split("", '/') == [""] && s + ['/'] + "" == s + "/";
      assert (segs + [""])[..|segs|] == segs;
    } else {
      assert s + "" == s;
    }
  }

  /** A relative path leads where its normal form does, from any directory. */
  lemma NormalLeadsThere(base: seq<string>, rel: string)
    requires AllProper(base) && !Absolute(rel)
    ensures Under(base, Normalize(rel)) == Under(base, rel)
  {
    if rel == "" {
      SplitNone(".", '/');
      UnderNothing(base);
    } else {
      var tidy := Walk([], Split(rel, '/'), true);
      TidyLeadsThere(base, Split(rel, '/'));
      WalkKeeps(Split(rel, '/'));
      if tidy == [] {
        UnderNothing(base);
      } else {
        assert tidy[0] in tidy;
        JoinedIsSplit(tidy, Slashed(rel), base);
        NotEmptyJoin(tidy);
        assert "" + Join(tidy, "/") == Join(tidy, "/");
      }
    }
  }

  lemma NotEmptyJoin(segs: seq<string>)
    requires segs != [] && segs[0] != ""
    ensures Join(segs, "/") != ""
  {
  }

  lemma UnderNothing(base: seq<string>)
    ensures Under(base, ".") == base && Under(base, "./") == base && Under(base, "") == base
  {
    SplitNone(".", '/');
    SplitAppend(".", "", '/');
    assert "." + ['/'] + "" == "./" && Split("", '/') == [""];
    var one, two, none := ["."], [".", ""], [""];
    assert one[..0] == [] && two[..1] == one && none[..0] == [];
    assert Walk(base, one, false) == Move(Walk(base, [], false), ".", false);
    assert Walk(base, two, false) == Move(Walk(base, one, false), "", false);
    assert Walk(base, none, false) == Move(Walk(base, [], false), "", false);
  }

  // ----- Containment -----

  /** For normalised paths, starting with a directory's path and a slash is lying in that directory. */
  lemma PrefixIsContainment(base: seq<string>, key: seq<string>, slash: bool)
    requires AllProper(base) && AllProper(key) && base != [] && (slash ==> key != [])
    ensures StartsWith(Abs(key) + if slash then "/" else "", Abs(base) + "/")
            <==> base <= key && (slash || key != base)
  {
    if slash {
      SlashedContainment(base, key);
    } else {
      assert Abs(key) + "" == Abs(key);
      PlainContainment(base, key);
    }
  }

  lemma Behind<T>(front: seq<T>, whole: seq<T>, a: seq<T>, b: seq<T>)
    requires front + whole == front + a + b
    ensures whole == a + b
  {
    AppendAssociates(front, a, b);
    assert (front + whole)[|front|..] == whole;
    assert (front + (a + b))[|front|..] == a + b;
  }

  lemma PlainContainment(base: seq<string>, key: seq<string>)
    requires AllProper(base) && AllProper(key) && base != []
    ensures StartsWith(Abs(key), Abs(base) + "/") <==> base < key
  {
    if StartsWith(Abs(key), Abs(base) + "/") {
      var rest := Abs(key)[|Abs(base)| + 1..];
      assert Abs(key) == Abs(base) + "/" + rest;
      SplitAppend(Abs(base), rest, '/');
      SplitAbs(base);
      if key != [] {
        SplitAbs(key);
        Behind([""], key, base, Split(rest, '/'));
      }
    }
    if base < key {
      AbsAppend(base, key[|base|..]);
      assert base + key[|base|..] == key;
    }
  }

  lemma SlashedContainment(base: seq<string>, key: seq<string>)
    requires AllProper(base) && AllProper(key) && base != [] && key != []
    ensures StartsWith(Abs(key) + "/", Abs(base) + "/") <==> base <= key
  {
    if StartsWith(Abs(key) + "/", Abs(base) + "/") {
      SlashedInside(base, key, (Abs(key) + "/")[|Abs(base)| + 1..]);
    }
    if base <= key && base != key {
      AbsAppend(base, key[|base|..]);
      assert base + key[|base|..] == key;
    }
  }

  lemma SlashedInside(base: seq<string>, key: seq<string>, rest: string)
    requires AllProper(base) && AllProper(key) && base != [] && key != []
    requires Abs(key) + "/" == Abs(base) + "/" + rest
    ensures base <= key
  {
    SplitAppend(Abs(base), rest, '/');
    SplitAppend(Abs(key), "", '/');
    assert Abs(key) + "/" + "" == Abs(key) + "/";
    SplitAbs(base);
    SplitAbs(key);
    assert Split("", '/') == [""];
    AppendAssociates([""], key, [""]);
    Behind([""], key + [""], base, Split(rest, '/'));
    assert key == (key + [""])[..|key|];
    assert base == (base + Split(rest, '/'))[..|base|];
  }

  lemma {:induction false} JoinAppend(a: seq<string>, b: seq<string>)
    requires a != [] && b != []
    ensures Join(a + b, "/") == Join(a, "/") + "/" + Join(b, "/")
  {
    if |a| == 1 {
      assert (a + b)[1..] == b;
    } else {
      JoinAppend(a[1..], b);
      assert (a + b)[1..] == a[1..] + b;
      assert (a + b)[0] == a[0];
    }
  }

  lemma AbsAppend(base: seq<string>, more: seq<string>)
    requires base != [] && more != []
    ensures Abs(base + more) == Abs(base) + "/" + Join(more, "/")
  {
    JoinAppend(base, more);
  }
}
