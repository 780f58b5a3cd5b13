/** The key under which a warm handle waits for its session (src/kernel/prewarmPool.ts). */
module Identity {
  import opened Text

  datatype Source = Git(url: string, revision: Option<string>) | Cache(ref: string) | Files(count: nat)

  datatype PrewarmIdentity = PrewarmIdentity(ownerId: Option<string>, environment: string,
        runtimeProfile: Option<string>, projectId: Option<string>, source: Option<Source>)

  function OrElse(o: Option<string>, other: string): string {
    if o.Some? then o.value else other
  }

  function Fingerprint(source: Option<Source>): string {
    match source
    case None => "none"
    case Some(Git(url, revision)) => "git:" + url + "@" + OrElse(revision, "HEAD")
    case Some(Cache(ref)) => "cache:" + ref
    case Some(Files(count)) => "files:" + Decimal(count)
  }

  predicate HasProject(id: PrewarmIdentity) {
    id.projectId.Some? && id.projectId.value != ""
  }

  function Workspace(id: PrewarmIdentity): string {
    if HasProject(id) then "proj:" + id.projectId.value else Fingerprint(id.source)
  }

  const SEP: string := "::"

  function PrewarmKey(id: PrewarmIdentity): string {
    Join([OrElse(id.ownerId, "-"), id.environment, OrElse(id.runtimeProfile, "-"), Workspace(id)], SEP)
  }

  predicate HasSep(s: string) {
    exists k: nat | k <= |s| :: OccursAt(s, SEP, k)
  }

  /** A field that cannot be confused with what follows it in the key. */
  predicate Clean(s: string) {
    !HasSep(s) && (s != "" ==> s[|s| - 1] != ':')
  }

  /** The profile may end in a colon, since no workspace begins with one. */
  predicate CleanIdentity(id: PrewarmIdentity) {
    && Clean(OrElse(id.ownerId, "")) && Clean(id.environment) && !HasSep(OrElse(id.runtimeProfile, ""))
    && id.ownerId != Some("-") && id.runtimeProfile != Some("-")
  }

  /** Same owner, environment, profile and workspace. */
  predicate SameIdentity(a: PrewarmIdentity, b: PrewarmIdentity) {
    && a.ownerId == b.ownerId && a.environment == b.environment && a.runtimeProfile == b.runtimeProfile
    && Workspace(a) == Workspace(b)
  }

  lemma CleanEndsAtSep(a: string, rest: string)
    requires Clean(a)
    ensures IndexOf(a + SEP + rest, SEP) == |a|
  {
    var s := a + SEP + rest;
    assert s[|a|..|a| + 2] == SEP;
    forall k: nat | k < |a|
      ensures !OccursAt(s, SEP, k)
    {
      if k + 2 <= |a| {
        assert s == a + (SEP + rest);
        OccursInPrefix(a, SEP + rest, SEP, k);
      } else {
        assert s[k] == a[k];
        assert s[k..k + 2][0] == s[k];
      }
    }
    FirstIsIndex(s, SEP, |a|);
  }

  /** A clean field is read back from the front of a key. */
  lemma FieldIsReadBack(a: string, x: string, b: string, y: string)
    requires Clean(a) && Clean(b) && a + SEP + x == b + SEP + y
    ensures a == b && x == y
  {
    CleanEndsAtSep(a, x);
    CleanEndsAtSep(b, y);
    var s, t := a + SEP + x, b + SEP + y;
    assert s[..|a|] == a && t[..|b|] == b;
    assert s[|a| + 2..] == x && t[|b| + 2..] == y;
  }

  /** So is a field that may end in a colon, when what follows does not begin with one. */
  lemma LastFieldIsReadBack(a: string, x: string, b: string, y: string)
    requires !HasSep(a) && !HasSep(b) && a + SEP + x == b + SEP + y
    requires x != "" && y != "" && x[0] != ':' && y[0] != ':'
    ensures a == b && x == y
  {
    if |a| < |b| {
      SepInLonger(a, x, b, y);
    }
    if |b| < |a| {
      SepInLonger(b, y, a, x);
    }
    var s, t := a + SEP + x, b + SEP + y;
    assert s[..|a|] == a && t[..|b|] == b;
    assert s[|a| + 2..] == x && t[|b| + 2..] == y;
  }

  lemma SepInLonger(a: string, x: string, b: string, y: string)
    requires a + SEP + x == b + SEP + y && |a| < |b| && x != "" && x[0] != ':'
    ensures HasSep(b)
  {
    var s, t := a + SEP + x, b + SEP + y;
    assert s[|a|] == ':' && s[|a| + 1] == ':' && s[|a| + 2] == x[0];
    assert t[|b|] == ':' && t[|b| + 1] == ':';
    assert |a| + 2 <= |b|;
    assert b[|a|] == t[|a|] && b[|a| + 1] == t[|a| + 1];
    assert OccursAt(b, SEP, |a|);
  }

  lemma DashIsClean()
    ensures Clean("-")
  {
    assert forall k: nat | k <= 1 :: !OccursAt("-", SEP, k);
  }

  lemma WorkspaceStart(id: PrewarmIdentity)
    ensures Workspace(id) != "" && Workspace(id)[0] != ':'
  {
  }

  lemma KeyShape(id: PrewarmIdentity)
    ensures PrewarmKey(id) == OrElse(id.ownerId, "-") + SEP
                              + (id.environment + SEP + (OrElse(id.runtimeProfile, "-") + SEP + Workspace(id)))
  {
    var fields := [OrElse(id.ownerId, "-"), id.environment, OrElse(id.runtimeProfile, "-"), Workspace(id)];
    assert fields[1..] == [id.environment, OrElse(id.runtimeProfile, "-"), Workspace(id)];
    assert fields[1..][1..] == [OrElse(id.runtimeProfile, "-"), Workspace(id)];
    assert fields[1..][1..][1..] == [Workspace(id)];
    assert Join([Workspace(id)], SEP) == Workspace(id);
    assert Join(fields[1..][1..], SEP) == OrElse(id.runtimeProfile, "-") + SEP + Workspace(id);
    assert Join(fields[1..], SEP) == id.environment + SEP + Join(fields[1..][1..], SEP);
  }

  /** Between clean identities, equal keys are equal identities. */
  lemma KeysIdentify(a: PrewarmIdentity, b: PrewarmIdentity)
    requires CleanIdentity(a) && CleanIdentity(b)
    ensures PrewarmKey(a) == PrewarmKey(b) <==> SameIdentity(a, b)
  {
    KeyShape(a);
    KeyShape(b);
    DashIsClean();
    if PrewarmKey(a) == PrewarmKey(b) {
      var pa, pb := OrElse(a.runtimeProfile, "-"), OrElse(b.runtimeProfile, "-");
      FieldIsReadBack(OrElse(a.ownerId, "-"), a.environment + SEP + (pa + SEP + Workspace(a)),
                      OrElse(b.ownerId, "-"), b.environment + SEP + (pb + SEP + Workspace(b)));
      FieldIsReadBack(a.environment, pa + SEP + Workspace(a), b.environment, pb + SEP + Workspace(b));
      WorkspaceStart(a);
      WorkspaceStart(b);
      LastFieldIsReadBack(pa, Workspace(a), pb, Workspace(b));
    }
  }

  /** A project is only ever confused with itself: no source fingerprint looks like one. */
  lemma SameProject(a: PrewarmIdentity, b: PrewarmIdentity)
    requires HasProject(a) && Workspace(a) == Workspace(b)
    ensures HasProject(b) && a.projectId == b.projectId
  {
    assert Workspace(a)[0] == 'p' && Workspace(a)[5..] == a.projectId.value;
    assert |Fingerprint(b.source)| > 0 && Fingerprint(b.source)[0] != 'p';
    assert Workspace(b)[0] == 'p';
    assert HasProject(b) ==> Workspace(b)[5..] == b.projectId.value;
  }

  // ----- Which sources share a fingerprint -----

  /** The same repository at the same revision, the same cache, or as many files. */
  predicate SameSource(a: Option<Source>, b: Option<Source>) {
    match (a, b)
    case (None, None) => true
    case (Some(Git(url, revision)), Some(Git(url', revision'))) =>
      url == url' && OrElse(revision, "HEAD") == OrElse(revision', "HEAD")
    case (Some(Cache(ref)), Some(Cache(ref'))) => ref == ref'
    case (Some(Files(count)), Some(Files(count'))) => count == count'
    case _ => false
  }

  /** A revision that cannot be confused with the end of an address. */
  predicate PlainRevision(source: Option<Source>) {
    source.Some? && source.value.Git? && source.value.revision.Some? ==> '@' !in source.value.revision.value
  }

  lemma {:induction false} DecimalIdentifies(m: nat, n: nat)
    ensures Decimal(m) == Decimal(n) <==> m == n
    ensures |Decimal(m)| > 0
  {
    DecimalLast(m);
    DecimalLast(n);
    if Decimal(m) == Decimal(n) {
      assert m % 10 == n % 10;
      if m >= 10 && n >= 10 {
        assert Decimal(m / 10) == Decimal(m)[..|Decimal(m)| - 1] && Decimal(n / 10) == Decimal(n)[..|Decimal(n)| - 1];
        DecimalIdentifies(m / 10, n / 10);
      }
    }
  }

  lemma DecimalLast(n: nat)
    ensures |Decimal(n)| >= (if n < 10 then 1 else 2)
    ensures Decimal(n)[|Decimal(n)| - 1] == '0' + (n % 10) as char
    ensures n < 10 ==> |Decimal(n)| == 1
  {
  }

  lemma AtSplits(u: string, r: string, u': string, r': string)
    requires '@' !in r && '@' !in r' && u + "@" + r == u' + "@" + r'
    ensures u == u' && r == r'
  {
    var s := u + "@" + r;
    assert s[|u|] == '@' && s[|u'|] == '@';
    assert forall j | |u| < j < |s| :: s[j] == r[j - |u| - 1];
    assert forall j | |u'| < j < |s| :: s[j] == r'[j - |u'| - 1];
    assert s[..|u|] == u && s[..|u'|] == u' && s[|u| + 1..] == r && s[|u'| + 1..] == r';
  }

  /** What kind of source a fingerprint is of shows in its first character. */
  lemma KindShows(source: Option<Source>)
    ensures var x := Fingerprint(source);
            && x != "" && (source.None? <==> x[0] == 'n')
            && (source.Some? ==>
                  && (source.value.Git? <==> x[0] == 'g') && (source.value.Cache? <==> x[0] == 'c')
                  && (source.value.Files? <==> x[0] == 'f'))
  {
  }

  lemma GitIdentifies(u: string, r: string, u': string, r': string)
    requires '@' !in r && '@' !in r'
    ensures "git:" + u + "@" + r == "git:" + u' + "@" + r' <==> u == u' && r == r'
  {
    var x, y := "git:" + u + "@" + r, "git:" + u' + "@" + r';
    assert x[4..] == u + "@" + r && y[4..] == u' + "@" + r';
    if x == y {
      AtSplits(u, r, u', r');
    }
  }

  lemma BehindIdentifies(front: string, a: string, b: string)
    ensures front + a == front + b <==> a == b
  {
    assert (front + a)[|front|..] == a && (front + b)[|front|..] == b;
  }

  /** Sources whose revisions have no `@` share a fingerprint exactly when they are the same. */
  lemma SourcesIdentify(a: Option<Source>, b: Option<Source>)
    requires PlainRevision(a) && PlainRevision(b)
    ensures Fingerprint(a) == Fingerprint(b) <==> SameSource(a, b)
  {
    KindShows(a);
    KindShows(b);
    if a.Some? && b.Some? {
      match (a.value, b.value)
      case (Git(u, r), Git(u', r')) =>
        assert '@' !in "HEAD";
        GitIdentifies(u, OrElse(r, "HEAD"), u', OrElse(r', "HEAD"));
      case (Cache(ref), Cache(ref')) => BehindIdentifies("cache:", ref, ref');
      case (Files(m), Files(n)) =>
        BehindIdentifies("files:", Decimal(m), Decimal(n));
        DecimalIdentifies(m, n);
      case _ =>
    }
  }

  /** A revision with an `@` shares its fingerprint with another address. */
  lemma AtCollides(url: string, revision: string) returns (b: Source)
    requires '@' in revision
    ensures Fingerprint(Some(b)) == Fingerprint(Some(Git(url, Some(revision))))
    ensures b.Git? && b.url != url
  {
    var k :| 0 <= k < |revision| && revision[k] == '@';
    var front, back := revision[..k], revision[k + 1..];
    assert revision == front + "@" + back;
    b := Git(url + "@" + front, Some(back));
    assert "git:" + url + "@" + revision == "git:" + (url + "@" + front) + "@" + back;
  }

  // ----- Every unclean identity is confused with another -----

  /** Where an unclean field, followed by a separator, can be cut earlier. */
  lemma UncleanCut(o: string) returns (x: string, y: string)
    requires !Clean(o)
    ensures x != o && forall e: string :: o + SEP + e == x + SEP + (y + e)
    ensures HasSep(o) ==> |y| >= 2 && y[|y| - 2..] == SEP
    ensures !HasSep(o) ==> y == ":"
  {
    if HasSep(o) {
      var k: nat :| k <= |o| && OccursAt(o, SEP, k);
      x, y := o[..k], o[k + 2..] + SEP;
      assert o == x + SEP + o[k + 2..];
      forall e: string
        ensures o + SEP + e == x + SEP + (y + e)
      {
        AppendAssociates(x + SEP, y, e);
        AppendAssociates(x + SEP, o[k + 2..], SEP);
      }
    } else {
      x, y := o[..|o| - 1], ":";
      assert o == x + ":";
      forall e: string
        ensures o + SEP + e == x + SEP + (y + e)
      {
        assert o + SEP + e == x + ":" + ":" + ":" + e;
      }
    }
  }

  /** An owner that is unclean, or `-`, shares its key with another owner. */
  lemma UncleanOwnerCollides(a: PrewarmIdentity) returns (b: PrewarmIdentity)
    requires a.ownerId.Some? && (!Clean(a.ownerId.value) || a.ownerId.value == "-")
    ensures PrewarmKey(a) == PrewarmKey(b) && a.ownerId != b.ownerId && Workspace(a) == Workspace(b)
  {
    if a.ownerId.value == "-" {
      b := a.(ownerId := None);
    } else {
      var x, y := UncleanCut(a.ownerId.value);
      b := a.(ownerId := Some(x), environment := y + a.environment);
      KeyShape(a);
      KeyShape(b);
      AppendAssociates(y, a.environment, SEP);
      AppendAssociates(y, a.environment + SEP, OrElse(a.runtimeProfile, "-") + SEP + Workspace(a));
    }
  }

  /** An unclean environment shares its key with another environment. */
  lemma UncleanEnvironmentCollides(a: PrewarmIdentity) returns (b: PrewarmIdentity)
    requires !Clean(a.environment)
    ensures PrewarmKey(a) == PrewarmKey(b) && a.environment != b.environment && Workspace(a) == Workspace(b)
  {
    var x, y := UncleanCut(a.environment);
    var p := OrElse(a.runtimeProfile, "-");
    b := a.(environment := x, runtimeProfile := Some(y + p));
    KeyShape(a);
    KeyShape(b);
    AppendAssociates(y, p, SEP);
    AppendAssociates(y, p + SEP, Workspace(a));
  }

  lemma Regroup(e: string, x: string, y: string, w: string)
    ensures e + SEP + (x + SEP + y + SEP + w) == e + SEP + x + SEP + (y + SEP + w)
  {
    AppendAssociates(e + SEP, x + SEP + y, SEP + w);
    AppendAssociates(x + SEP + y, SEP, w);
    AppendAssociates(e + SEP, x + SEP, y);
    AppendAssociates(e + SEP, x, SEP);
    AppendAssociates(e + SEP + x + SEP, y, SEP + w);
    AppendAssociates(y, SEP, w);
  }

  /** A profile with a separator in it, or `-`, shares its key with another profile. */
  lemma UncleanProfileCollides(a: PrewarmIdentity) returns (b: PrewarmIdentity)
    requires a.runtimeProfile.Some? && (HasSep(a.runtimeProfile.value) || a.runtimeProfile.value == "-")
    ensures PrewarmKey(a) == PrewarmKey(b) && a.runtimeProfile != b.runtimeProfile && Workspace(a) == Workspace(b)
  {
    var p := a.runtimeProfile.value;
    if p == "-" {
      b := a.(runtimeProfile := None);
    } else {
      var k: nat :| k <= |p| && OccursAt(p, SEP, k);
      var x, y := p[..k], p[k + 2..];
      assert p == x + SEP + y;
      b := a.(environment := a.environment + SEP + x, runtimeProfile := Some(y));
      KeyShape(a);
      KeyShape(b);
      Regroup(a.environment, x, y, Workspace(a));
    }
  }

  /**
   The condition of `KeysIdentify` is the exact one: every identity that does not meet it shares its key with a
   different identity.
   */
  lemma UncleanCollides(a: PrewarmIdentity) returns (b: PrewarmIdentity)
    requires !CleanIdentity(a)
    ensures PrewarmKey(a) == PrewarmKey(b) && !SameIdentity(a, b) && Workspace(a) == Workspace(b)
  {
    assert Clean("") by {
      assert forall k: nat | k <= 0 :: !OccursAt("", SEP, k);
    }
    if a.ownerId.Some? && (!Clean(a.ownerId.value) || a.ownerId.value == "-") {
      b := UncleanOwnerCollides(a);
    } else if !Clean(a.environment) {
      b := UncleanEnvironmentCollides(a);
    } else {
      b := UncleanProfileCollides(a);
    }
  }
}
