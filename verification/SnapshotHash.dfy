/** The content address of a snapshot (src/kernel/previewSnapshot.ts). The digest is a parameter. */
module SnapshotHash {
  import opened Text

  datatype CapturedFile = CapturedFile(name: string, content: string)

  /** String order, as `<` compares. */
  predicate Before(a: string, b: string) {
    if b == "" then false
    else if a == "" then true
    else if a[0] != b[0] then a[0] < b[0]
    else Before(a[1..], b[1..])
  }

  function Insert(sorted: seq<CapturedFile>, f: CapturedFile): seq<CapturedFile> {
    if sorted == [] || !Before(f.name, sorted[|sorted| - 1].name) then sorted + [f]
    else Insert(sorted[..|sorted| - 1], f) + [sorted[|sorted| - 1]]
  }

  /** `sort` by name; files with one name keep their order. */
  function Sort(files: seq<CapturedFile>): seq<CapturedFile> {
    if files == [] then [] else Insert(Sort(files[..|files| - 1]), files[|files| - 1])
  }

  /** What the hash is fed. */
  function HashText(files: seq<CapturedFile>): string {
    if files == [] then ""
    else
      var f := files[|files| - 1];
      HashText(files[..|files| - 1]) + (f.name + "\0" + f.content + "\0")
  }

  function Short(hex: string): string {
    if |hex| <= 24 then hex else hex[..24]
  }

  method HashFiles(files: seq<CapturedFile>, digest: string -> string) returns (id: string)
    ensures id == Short(digest(HashText(Sort(files))))
  {
    var fed := "";
    var sorted := Sort(files);
    for i := 0 to |sorted|
      invariant fed == HashText(sorted[..i])
    {
      assert sorted[..i + 1][..i] == sorted[..i];
      fed := fed + (sorted[i].name + "\0" + sorted[i].content + "\0");
    }
    assert sorted[..|sorted|] == sorted;
    id := Short(digest(fed));
  }

  /** Of a digest that is long enough, the id is the first 24 digits. */
  lemma IdIsFirstDigits(hex: string)
    requires |hex| >= 24
    ensures |Short(hex)| == 24 && Short(hex) <= hex
  {
  }

  // ----- The order of names -----

  lemma {:induction false} BeforeIsTotal(a: string, b: string)
    ensures Before(a, b) || Before(b, a) <==> a != b
    ensures !(Before(a, b) && Before(b, a))
  {
    if a != "" && b != "" && a[0] == b[0] {
      BeforeIsTotal(a[1..], b[1..]);
      assert a == [a[0]] + a[1..] && b == [b[0]] + b[1..];
    }
  }

  lemma {:induction false} BeforeIsTransitive(a: string, b: string, c: string)
    requires !Before(b, a) && !Before(c, b)
    ensures !Before(c, a)
  {
    if a != "" && b != "" && c != "" && a[0] == b[0] == c[0] {
      BeforeIsTransitive(a[1..], b[1..], c[1..]);
    }
  }

  // ----- Sorting -----

  predicate Ordered(files: seq<CapturedFile>) {
    forall i, j | 0 <= i < j < |files| :: !Before(files[j].name, files[i].name)
  }

  predicate DistinctNames(files: seq<CapturedFile>) {
    forall i, j | 0 <= i < j < |files| :: files[i].name != files[j].name
  }

  lemma {:induction false} InsertKeeps(sorted: seq<CapturedFile>, f: CapturedFile)
    ensures multiset(Insert(sorted, f)) == multiset(sorted) + multiset{f}
  {
    if sorted != [] {
      var front, last := sorted[..|sorted| - 1], sorted[|sorted| - 1];
      assert sorted == front + [last];
      if Before(f.name, last.name) {
        InsertKeeps(front, f);
      }
    }
  }

  lemma {:induction false} InsertOrders(sorted: seq<CapturedFile>, f: CapturedFile)
    requires Ordered(sorted)
    ensures Ordered(Insert(sorted, f))
  {
    if sorted == [] {
    } else if !Before(f.name, sorted[|sorted| - 1].name) {
      forall i | 0 <= i < |sorted|
        ensures !Before(f.name, sorted[i].name)
      {
        var last := sorted[|sorted| - 1];
        if i < |sorted| - 1 {
          BeforeIsTransitive(sorted[i].name, last.name, f.name);
        }
      }
    } else {
      var front, last := sorted[..|sorted| - 1], sorted[|sorted| - 1];
      InsertOrders(front, f);
      InsertKeeps(front, f);
      var placed := Insert(front, f);
      forall i | 0 <= i < |placed|
        ensures !Before(last.name, placed[i].name)
      {
        assert placed[i] in multiset(placed);
        assert placed[i] in front || placed[i] == f;
        BeforeIsTotal(f.name, last.name);
      }
    }
  }

  lemma {:induction false} SortSorts(files: seq<CapturedFile>)
    ensures Ordered(Sort(files)) && multiset(Sort(files)) == multiset(files)
  {
    if files != [] {
      var front, last := files[..|files| - 1], files[|files| - 1];
      assert files == front + [last];
      SortSorts(front);
      InsertOrders(Sort(front), last);
      InsertKeeps(Sort(front), last);
    }
  }

  lemma DistinctSurvives(a: seq<CapturedFile>, b: seq<CapturedFile>)
    requires multiset(a) == multiset(b) && DistinctNames(a)
    ensures OneFileAName(b)
  {
    forall f, g | f in b && g in b && f.name == g.name
      ensures f == g
    {
      assert f in multiset(b) && g in multiset(b);
      assert f in a && g in a;
    }
  }

  predicate OneFileAName(files: seq<CapturedFile>) {
    forall f, g | f in files && g in files && f.name == g.name :: f == g
  }

  lemma SameLast(a: seq<CapturedFile>, b: seq<CapturedFile>)
    requires Ordered(a) && Ordered(b) && multiset(a) == multiset(b) && OneFileAName(a) && a != []
    ensures b != [] && a[|a| - 1] == b[|b| - 1]
  {
    assert |multiset(a)| == |multiset(b)|;
    var la, lb := a[|a| - 1], b[|b| - 1];
    assert la in multiset(b) && lb in multiset(a);
    var i :| 0 <= i < |b| && b[i] == la;
    var j :| 0 <= j < |a| && a[j] == lb;
    BeforeIsTotal(la.name, lb.name);
    assert i < |b| - 1 ==> !Before(lb.name, b[i].name);
    assert j < |a| - 1 ==> !Before(la.name, a[j].name);
  }

  lemma FrontBag(a: seq<CapturedFile>, la: CapturedFile)
    requires a != [] && la == a[|a| - 1]
    ensures multiset(a[..|a| - 1]) == multiset(a) - multiset{la}
  {
    assert a == a[..|a| - 1] + [la];
  }

  lemma FrontOrdered(a: seq<CapturedFile>)
    requires Ordered(a) && a != []
    ensures Ordered(a[..|a| - 1])
  {
  }

  lemma FrontOneFile(a: seq<CapturedFile>)
    requires OneFileAName(a) && a != []
    ensures OneFileAName(a[..|a| - 1])
  {
    assert forall f | f in a[..|a| - 1] :: f in a;
  }

  /** An order of distinct names leaves one arrangement. */
  lemma {:induction false} OneArrangement(a: seq<CapturedFile>, b: seq<CapturedFile>)
    requires Ordered(a) && Ordered(b) && multiset(a) == multiset(b) && |a| == |b| && OneFileAName(a)
    ensures a == b
  {
    if a != [] {
      var fa, fb := a[..|a| - 1], b[..|b| - 1];
      SameLast(a, b);
      FrontBag(a, a[|a| - 1]);
      FrontBag(b, b[|b| - 1]);
      FrontOrdered(a);
      FrontOrdered(b);
      FrontOneFile(a);
      OneArrangement(fa, fb);
      SameEnds(a, b);
    }
  }

  lemma SameEnds<T>(a: seq<T>, b: seq<T>)
    requires a != [] && b != [] && a[..|a| - 1] == b[..|b| - 1] && a[|a| - 1] == b[|b| - 1]
    ensures a == b
  {
    assert a == a[..|a| - 1] + [a[|a| - 1]];
    assert b == b[..|b| - 1] + [b[|b| - 1]];
  }

  // ----- Reading the hash input back -----

  predicate NulFree(files: seq<CapturedFile>) {
    forall f | f in files :: '\0' !in f.name && '\0' !in f.content
  }

  function Fields(files: seq<CapturedFile>): seq<string> {
    if files == [] then []
    else Fields(files[..|files| - 1]) + [files[|files| - 1].name, files[|files| - 1].content]
  }

  lemma {:induction false} FieldsAreRead(files: seq<CapturedFile>, more: string)
    requires NulFree(files)
    ensures Split(HashText(files) + more, '\0') == Fields(files) + Split(more, '\0')
  {
    if files == [] {
      assert HashText(files) + more == more;
    } else {
      var front, f := files[..|files| - 1], files[|files| - 1];
      assert f in files;
      var tail := f.content + "\0" + more;
      assert HashText(files) + more == HashText(front) + (f.name + "\0" + tail);
      FieldsAreRead(front, f.name + "\0" + tail);
      SplitAtSep(f.name, tail, '\0');
      SplitAtSep(f.content, more, '\0');
      assert [f.name] + ([f.content] + Split(more, '\0')) == [f.name, f.content] + Split(more, '\0');
      AppendAssociates(Fields(front), [f.name, f.content], Split(more, '\0'));
    }
  }

  lemma {:induction false} FieldsIdentify(a: seq<CapturedFile>, b: seq<CapturedFile>)
    requires Fields(a) == Fields(b)
    ensures a == b
  {
    FieldCount(a);
    FieldCount(b);
    if a != [] {
      var fa, la, fb, lb := a[..|a| - 1], a[|a| - 1], b[..|b| - 1], b[|b| - 1];
      FieldCount(fa);
      FieldCount(fb);
      var n := |Fields(fa)|;
      assert Fields(a)[..n] == Fields(fa) && Fields(b)[..n] == Fields(fb);
      assert Fields(a)[n] == la.name && Fields(a)[n + 1] == la.content;
      assert Fields(b)[n] == lb.name && Fields(b)[n + 1] == lb.content;
      FieldsIdentify(fa, fb);
      assert a == fa + [la] && b == fb + [lb];
    }
  }

  lemma {:induction false} FieldCount(files: seq<CapturedFile>)
    ensures |Fields(files)| == 2 * |files|
  {
    if files != [] {
      FieldCount(files[..|files| - 1]);
    }
  }

  lemma HashTextIdentifies(a: seq<CapturedFile>, b: seq<CapturedFile>)
    requires NulFree(a) && NulFree(b) && HashText(a) == HashText(b)
    ensures a == b
  {
    FieldsAreRead(a, "");
    FieldsAreRead(b, "");
    assert HashText(a) + "" == HashText(b) + "";
    assert Fields(a) == (Fields(a) + [""])[..|Fields(a) + [""]| - 1];
    assert Fields(b) == (Fields(b) + [""])[..|Fields(b) + [""]| - 1];
    FieldsIdentify(a, b);
  }

  /**
   Between NUL-free archives, one of them with distinct names, the hash is fed the same text exactly when one
   archive is a reordering of the other.
   */
  lemma AddressIgnoresOrder(a: seq<CapturedFile>, b: seq<CapturedFile>)
    requires NulFree(a) && NulFree(b) && DistinctNames(a)
    ensures HashText(Sort(a)) == HashText(Sort(b)) <==> multiset(a) == multiset(b)
  {
    SortSorts(a);
    SortSorts(b);
    if HashText(Sort(a)) == HashText(Sort(b)) {
      SortedNulFree(a);
      SortedNulFree(b);
      HashTextIdentifies(Sort(a), Sort(b));
    }
    if multiset(a) == multiset(b) {
      ReorderedSortsAlike(a, b);
    }
  }

  /** The order of an archive with distinct names, NUL or not, does not reach the hash. */
  lemma ReorderedSortsAlike(a: seq<CapturedFile>, b: seq<CapturedFile>)
    requires DistinctNames(a) && multiset(a) == multiset(b)
    ensures Sort(a) == Sort(b)
  {
    SortSorts(a);
    SortSorts(b);
    DistinctSurvives(a, Sort(a));
    assert |multiset(Sort(a))| == |multiset(Sort(b))|;
    OneArrangement(Sort(a), Sort(b));
  }

  lemma SortedNulFree(a: seq<CapturedFile>)
    requires NulFree(a)
    ensures NulFree(Sort(a))
  {
    SortSorts(a);
    forall f | f in Sort(a)
      ensures '\0' !in f.name && '\0' !in f.content
    {
      assert f in multiset(Sort(a));
      assert f in a;
    }
  }

  lemma HashTextOfOne(f: CapturedFile)
    ensures HashText([f]) == f.name + "\0" + f.content + "\0" && Sort([f]) == [f]
  {
    assert [f][..0] == [];
    assert HashText([f]) == "" + (f.name + "\0" + f.content + "\0");
  }

  // ----- Which archives share their hash text -----

  function FileText(f: CapturedFile): string {
    f.name + "\0" + f.content + "\0"
  }

  lemma {:induction false} HashTextOfAppend(a: seq<CapturedFile>, b: seq<CapturedFile>)
    ensures HashText(a + b) == HashText(a) + HashText(b)
  {
    if b == [] {
      assert a + b == a;
    } else {
      var front, f := b[..|b| - 1], b[|b| - 1];
      assert (a + b)[..|a + b| - 1] == a + front;
      HashTextOfAppend(a, front);
      AppendAssociates(HashText(a), HashText(front), FileText(f));
    }
  }

  lemma InsertLast(sorted: seq<CapturedFile>, f: CapturedFile)
    requires sorted != [] ==> !Before(f.name, sorted[|sorted| - 1].name)
    ensures Insert(sorted, f) == sorted + [f]
  {
  }

  /** Sorting leaves an ordered list as it is. */
  lemma {:induction false} SortOrdered(files: seq<CapturedFile>)
    requires Ordered(files)
    ensures Sort(files) == files
  {
    if files != [] {
      var front, last := files[..|files| - 1], files[|files| - 1];
      FrontOrdered(files);
      SortOrdered(front);
      assert front != [] ==> !Before(files[|front|].name, files[|front| - 1].name);
      InsertLast(front, last);
      assert files == front + [last];
    }
  }

  /** Two files as one: the second becomes part of the content of the first. */
  function Merged(f: CapturedFile, g: CapturedFile): CapturedFile {
    CapturedFile(f.name, f.content + "\0" + g.name + "\0" + g.content)
  }

  lemma MergedText(f: CapturedFile, g: CapturedFile)
    ensures HashText([Merged(f, g)]) == HashText([f] + [g])
  {
    HashTextOfOne(Merged(f, g));
    HashTextOfOne(f);
    HashTextOfOne(g);
    HashTextOfAppend([f], [g]);
    MergedFileText(f, g);
  }

  lemma MergedFileText(f: CapturedFile, g: CapturedFile)
    ensures FileText(Merged(f, g)) == FileText(f) + FileText(g)
  {
    var tail := g.name + "\0" + g.content;
    AppendAssociates(f.content, "\0", tail);
    AppendAssociates(f.content + "\0", g.name, "\0" + g.content);
    AppendAssociates(g.name, "\0", g.content);
    assert Merged(f, g).content == f.content + "\0" + tail;
    AppendAssociates(f.name + "\0", f.content + "\0", tail);
    AppendAssociates(f.name + "\0", f.content, "\0");
    AppendAssociates(FileText(f), tail, "\0");
  }

  lemma SpliceOrdered(front: seq<CapturedFile>, f: CapturedFile, g: CapturedFile, back: seq<CapturedFile>,
                      m: CapturedFile)
    requires Ordered(front + [f, g] + back) && m.name == f.name
    ensures Ordered(front + [m] + back)
  {
    var all, other := front + [f, g] + back, front + [m] + back;
    var n := |front|;
    forall i, j | 0 <= i < j < |other|
      ensures !Before(other[j].name, other[i].name)
    {
      var p, q := if i <= n then i else i + 1, if j <= n then j else j + 1;
      assert other[i].name == all[p].name && other[j].name == all[q].name;
      assert !Before(all[q].name, all[p].name);
    }
  }

  /**
   An archive of two files or more, NUL or not, shares its hash text with the one in which two neighbours in name
   order are merged, whose names are among its own.
   */
  lemma NeighboursMerge(files: seq<CapturedFile>, i: nat) returns (other: seq<CapturedFile>)
    requires i + 1 < |files|
    ensures HashText(Sort(other)) == HashText(Sort(files)) && multiset(other) != multiset(files)
    ensures |Sort(files)| == |files|
    ensures other == Sort(files)[..i] + [Merged(Sort(files)[i], Sort(files)[i + 1])] + Sort(files)[i + 2..]
  {
    SortSorts(files);
    assert |multiset(Sort(files))| == |multiset(files)|;
    var sorted := Sort(files);
    var front, f, g, back := sorted[..i], sorted[i], sorted[i + 1], sorted[i + 2..];
    var m := Merged(f, g);
    other := front + [m] + back;
    assert sorted == front + [f, g] + back;
    SpliceOrdered(front, f, g, back, m);
    SortOrdered(other);
    SpliceText(front, f, g, back);
    assert |multiset(other)| == |other| == |files| - 1;
  }

  lemma SpliceText(front: seq<CapturedFile>, f: CapturedFile, g: CapturedFile, back: seq<CapturedFile>)
    ensures HashText(front + [Merged(f, g)] + back) == HashText(front + [f, g] + back)
  {
    HashTextOfAppend(front + [Merged(f, g)], back);
    HashTextOfAppend(front, [Merged(f, g)]);
    HashTextOfAppend(front + [f, g], back);
    HashTextOfAppend(front, [f, g]);
    MergedText(f, g);
    assert [f] + [g] == [f, g];
  }

  /** Where a name or a content can be cut at a NUL, another file feeds the hash the same text. */
  lemma AnotherFile(f: CapturedFile) returns (g: CapturedFile)
    requires '\0' in f.name || '\0' in f.content
    ensures g != f && FileText(g) == FileText(f)
  {
    if '\0' in f.content {
      var i :| 0 <= i < |f.content| && f.content[i] == '\0';
      var x, y := f.content[..i], f.content[i + 1..];
      assert f.content == x + "\0" + y;
      g := CapturedFile(f.name + "\0" + x, y);
      assert FileText(f) == f.name + "\0" + x + "\0" + y + "\0";
    } else {
      var i :| 0 <= i < |f.name| && f.name[i] == '\0';
      var x, y := f.name[..i], f.name[i + 1..];
      assert f.name == x + "\0" + y;
      g := CapturedFile(x, y + "\0" + f.content);
      assert FileText(f) == x + "\0" + (y + "\0" + f.content) + "\0";
    }
  }

  /** So does the archive of that one file. */
  lemma NulSplits(f: CapturedFile) returns (other: seq<CapturedFile>)
    requires '\0' in f.name || '\0' in f.content
    ensures HashText(Sort(other)) == HashText(Sort([f])) && multiset(other) != multiset([f])
  {
    var g := AnotherFile(f);
    other := [g];
    HashTextOfOne(f);
    HashTextOfOne(g);
    assert g in multiset(other) && g !in multiset([f]);
  }

  function Nuls(s: string): nat {
    if s == "" then 0 else Nuls(s[..|s| - 1]) + if s[|s| - 1] == '\0' then 1 else 0
  }

  lemma {:induction false} NulsOfAppend(a: string, b: string)
    ensures Nuls(a + b) == Nuls(a) + Nuls(b)
  {
    if b == "" {
      assert a + b == a;
    } else {
      assert (a + b)[..|a + b| - 1] == a + b[..|b| - 1];
      NulsOfAppend(a, b[..|b| - 1]);
    }
  }

  lemma {:induction false} NoNuls(s: string)
    ensures Nuls(s) == 0 <==> '\0' !in s
  {
    if s != "" {
      NoNuls(s[..|s| - 1]);
      assert s == s[..|s| - 1] + [s[|s| - 1]];
    }
  }

  lemma FileNuls(f: CapturedFile)
    ensures Nuls(FileText(f)) == Nuls(f.name) + Nuls(f.content) + 2
  {
    assert "\0"[..0] == "" && Nuls("\0") == 1;
    NulsOfAppend(f.name, "\0");
    NulsOfAppend(f.name + "\0", f.content);
    NulsOfAppend(f.name + "\0" + f.content, "\0");
  }

  /** A text holds two NULs for each file, and more exactly when a name or a content has one. */
  lemma {:induction false} HashNuls(files: seq<CapturedFile>)
    ensures Nuls(HashText(files)) >= 2 * |files|
    ensures Nuls(HashText(files)) == 2 * |files| <==> NulFree(files)
  {
    if files != [] {
      var front, f := files[..|files| - 1], files[|files| - 1];
      assert files == front + [f];
      HashNuls(front);
      FileNuls(f);
      NulsOfAppend(HashText(front), FileText(f));
      NoNuls(f.name);
      NoNuls(f.content);
      assert NulFree(files) <==> NulFree(front) && '\0' !in f.name && '\0' !in f.content;
    }
  }

  /** An empty archive, or one NUL-free file, shares its hash text with no other archive. */
  lemma SmallIsAlone(files: seq<CapturedFile>, other: seq<CapturedFile>)
    requires |files| <= 1 && NulFree(files) && HashText(Sort(other)) == HashText(Sort(files))
    ensures multiset(other) == multiset(files)
  {
    SortSorts(files);
    SortSorts(other);
    assert |multiset(Sort(files))| == |multiset(files)| && |multiset(Sort(other))| == |multiset(other)|;
    SortedNulFree(files);
    HashNuls(Sort(files));
    HashNuls(Sort(other));
    HashTextIdentifies(Sort(files), Sort(other));
  }

  /**
   The id of an archive is fed the same text as that of some other archive exactly when it has two files or more, or
   a NUL in a name or content.
   */
  lemma NulCollides(files: seq<CapturedFile>)
    ensures (exists other: seq<CapturedFile> ::
               multiset(other) != multiset(files) && HashText(Sort(other)) == HashText(Sort(files)))
            <==> |files| >= 2 || !NulFree(files)
  {
    if |files| >= 2 {
      var other := NeighboursMerge(files, 0);
    } else if !NulFree(files) {
      assert files == [files[0]];
      var other := NulSplits(files[0]);
    }
    if |files| <= 1 && NulFree(files) {
      forall other: seq<CapturedFile> | HashText(Sort(other)) == HashText(Sort(files))
        ensures multiset(other) == multiset(files)
      {
        SmallIsAlone(files, other);
      }
    }
  }
}
