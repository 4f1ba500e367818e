/**
 The tree of Gmail mailboxes: each mailbox name that the server reports becomes a collection, with dummy
 collections for those of its parents that have not been reported.
 */
module GmailCollections {

  const SEPARATOR := '/'
  const ROOT: string := ""
  const GMAIL: string := "/[Gmail]"
  const CHATS: string := "[Gmail]/Chats"

  type Path = string

  /** A mailbox name as reported, with its flags. */
  datatype Descriptor = Descriptor(name: string, flags: set<string>)

  datatype Collection = Collection(parent: Path, noSelect: bool)

  function Split(s: string): (parts: seq<string>)
    ensures parts != []
  {
    if s == [] then [[]]
    else
      var rest := Split(s[1..]);
      if s[0] == SEPARATOR then [[]] + rest else [[s[0]] + rest[0]] + rest[1..]
  }

  /** The path of a mailbox from its parts: each is preceded by a separator. */
  function Join(parts: seq<string>): Path {
    if parts == [] then [] else Join(parts[..|parts| - 1]) + [SEPARATOR] + parts[|parts| - 1]
  }

  ghost predicate NoSeparator(parts: seq<string>) {
    forall k :: 0 <= k < |parts| ==> SEPARATOR !in parts[k]
  }

  lemma {:induction false} JoinConcat(a: seq<string>, b: seq<string>)
    ensures Join(a + b) == Join(a) + Join(b)
  {
    if b == [] {
      assert a + b == a;
    } else {
      var n := |b| - 1;
      assert (a + b)[..|a + b| - 1] == a + b[..n] && (a + b)[|a + b| - 1] == b[n];
      JoinConcat(a, b[..n]);
    }
  }

  lemma JoinOne(part: string)
    ensures Join([part]) == [SEPARATOR] + part
  {
    assert [part][..0] == [];
  }

  lemma JoinFirst(parts: seq<string>)
    requires parts != []
    ensures Join(parts) == [SEPARATOR] + parts[0] + Join(parts[1..])
  {
    assert parts == [parts[0]] + parts[1..];
    JoinConcat([parts[0]], parts[1..]);
    JoinOne(parts[0]);
  }

  lemma SameRest(c: char, a: string, b: string, d: string)
    requires [c] + a == [c] + b + d
    ensures a == b + d
  {
    assert ([c] + a)[1..] == a && ([c] + b + d)[1..] == b + d;
  }

  lemma NoSeparatorLonger(c: char, rest: seq<string>)
    requires rest != [] && NoSeparator(rest) && c != SEPARATOR
    ensures NoSeparator([[c] + rest[0]] + rest[1..])
  {
  }

  lemma NoSeparatorBefore(rest: seq<string>)
    requires NoSeparator(rest)
    ensures NoSeparator([[]] + rest)
  {
  }

  lemma JoinBefore(rest: seq<string>)
    ensures Join([[]] + rest) == [SEPARATOR] + Join(rest)
  {
    JoinFirst([[]] + rest);
    assert ([[]] + rest)[1..] == rest;
    hide Join;
    assert [SEPARATOR] + [] + Join(rest) == [SEPARATOR] + Join(rest);
  }

  lemma JoinLonger(c: char, rest: seq<string>, s: string)
    requires rest != [] && Join(rest) == [SEPARATOR] + s
    ensures Join([[c] + rest[0]] + rest[1..]) == [SEPARATOR] + ([c] + s)
  {
    var parts := [[c] + rest[0]] + rest[1..];
    JoinFirst(parts);
    JoinFirst(rest);
    assert parts[1..] == rest[1..];
    hide Join;
    SameRest(SEPARATOR, s, rest[0], Join(rest[1..]));
    assert [SEPARATOR] + ([c] + rest[0]) + Join(rest[1..]) == [SEPARATOR] + ([c] + (rest[0] + Join(rest[1..])));
  }

  /** Splitting and joining gives the name back, after the separator that stands for the root. */
  lemma {:induction false} JoinSplit(s: string)
    ensures Join(Split(s)) == [SEPARATOR] + s && NoSeparator(Split(s))
  {
    if s == [] {
      JoinOne([]);
    } else {
      JoinSplit(s[1..]);
      var rest := Split(s[1..]);
      assert s == [s[0]] + s[1..];
      hide Join, NoSeparator;
      if s[0] == SEPARATOR {
        NoSeparatorBefore(rest);
        JoinBefore(rest);
      } else {
        NoSeparatorLonger(s[0], rest);
        JoinLonger(s[0], rest, s[1..]);
      }
    }
  }

  /** `q` is a path above `path`, or `path` itself. */
  predicate Above(q: Path, path: Path) {
    q <= path && (|q| == |path| || path[|q|] == SEPARATOR)
  }

  /** There is no path between a path and its parent. */
  lemma NothingBetween(front: Path, last: string, q: Path)
    requires SEPARATOR !in last && Above(q, front + [SEPARATOR] + last) && |q| < |front| + 1 + |last|
    ensures Above(q, front)
  {
    var path := front + [SEPARATOR] + last;
    assert forall i :: |front| < i < |path| ==> path[i] == last[i - |front| - 1];
    assert |q| <= |front| && front == path[..|front|];
    assert q == path[..|q|];
  }

  lemma AboveStep(front: Path, last: string, q: Path)
    requires SEPARATOR !in last
    ensures Above(q, front + [SEPARATOR] + last) <==> Above(q, front) || q == front + [SEPARATOR] + last
  {
    var path := front + [SEPARATOR] + last;
    if Above(q, front) {
      assert path[..|front|] == front && path[|front|] == SEPARATOR;
      assert q == front[..|q|] == path[..|q|];
    }
    if Above(q, path) && |q| < |path| {
      NothingBetween(front, last, q);
    }
  }

  /** `q` is directly below `p`. */
  predicate Child(p: Path, q: Path) {
    p < q && q[|p|] == SEPARATOR && SEPARATOR !in q[|p| + 1..]
  }

  /** The path directly above. */
  function Dir(q: Path): Path {
    if q == [] then [] else if q[|q| - 1] == SEPARATOR then q[..|q| - 1] else Dir(q[..|q| - 1])
  }

  lemma {:induction false} DirOf(front: Path, part: string)
    requires SEPARATOR !in part
    ensures Dir(front + [SEPARATOR] + part) == front
  {
    var q := front + [SEPARATOR] + part;
    if part == [] {
      assert q[..|q| - 1] == front;
    } else {
      var n := |part| - 1;
      assert q[..|q| - 1] == front + [SEPARATOR] + part[..n];
      DirOf(front, part[..n]);
    }
  }

  /** System folders of Gmail are moved to the root. */
  predicate Special(path: Path, flags: set<string>) {
    path == "/INBOX"
    || flags * {"\\all", "\\trash", "\\junk", "\\drafts", "\\important", "\\sent", "\\flagged"} != {}
  }

  /** Which mailboxes these are: the inbox, and those with one of seven flags. */
  lemma SpecialExactly(path: Path, flags: set<string>)
    ensures Special(path, flags) <==>
              || path == ['/', 'I', 'N', 'B', 'O', 'X']
              || "\\all" in flags || "\\trash" in flags || "\\junk" in flags || "\\drafts" in flags
              || "\\important" in flags || "\\sent" in flags || "\\flagged" in flags
  {
    var system := {"\\all", "\\trash", "\\junk", "\\drafts", "\\important", "\\sent", "\\flagged"};
    if flag :| flag in flags * system {
      assert flag in system;
    }
    assert forall flag :: flag in flags && flag in system ==> flag in flags * system;
  }

  /** The name of the mailbox, without a separator at its end. */
  function BoxName(name: string): (box: string)
    ensures name == box + ['/'] || (name == box && (name == [] || name[|name| - 1] != '/'))
  {
    if name != [] && name[|name| - 1] == SEPARATOR then name[..|name| - 1] else name
  }

  ghost predicate SomeAbove(q: Path, accepted: seq<Path>) {
    exists i :: 0 <= i < |accepted| && Above(q, accepted[i])
  }

  const DUMMY_FLAGS: set<string> := {"\\noselect"}

  /** The flags with which a path is met along the path of a mailbox. */
  function FlagsAlong(q: Path, path: Path, flags: set<string>): set<string> {
    if q == path then flags else DUMMY_FLAGS
  }

  /** The flags with which a path is met first. */
  ghost function FirstFlags(accepted: seq<Path>, flags: seq<set<string>>, q: Path): set<string>
    requires |accepted| == |flags|
  {
    if accepted == [] then DUMMY_FLAGS else
      var n := |accepted| - 1;
      if SomeAbove(q, accepted[..n]) then FirstFlags(accepted[..n], flags[..n], q)
      else FlagsAlong(q, accepted[n], flags[n])
  }

  /** The path was met first above a mailbox, and not as one. */
  ghost predicate MetAsDummy(accepted: seq<Path>, q: Path) {
    accepted != []
    && var n := |accepted| - 1;
       if SomeAbove(q, accepted[..n]) then MetAsDummy(accepted[..n], q) else accepted[n] != q
  }

  /** Where a collection belongs that was created with these flags. */
  function ParentOf(q: Path, flags: set<string>): Path {
    if Special(q, flags) then ROOT else Dir(q)
  }

  /** Whether a system folder is moved to the root depends on whether it is met before the mailboxes below it. */
  lemma OrderMatters()
    ensures var q := "/[Gmail]/Sent Mail";
            && ParentOf(q, FirstFlags([q + "/x", q], [{}, {"\\sent"}], q)) == GMAIL
            && ParentOf(q, FirstFlags([q, q + "/x"], [{"\\sent"}, {}], q)) == ROOT
  {
    var q := "/[Gmail]/Sent Mail";
    var a, b := [q + "/x", q], [q, q + "/x"];
    assert a[..1] == [q + "/x"] && b[..1] == [q] && a[..1][..0] == [] && b[..1][..0] == [];
    assert Above(q, a[..1][0]) && SomeAbove(q, a[..1]);
    assert Above(q, b[..1][0]) && SomeAbove(q, b[..1]);
    assert !SomeAbove(q, []);
    assert FirstFlags(a[..1], [{}], q) == DUMMY_FLAGS;
    assert [{}, {"\\sent"}][..1] == [{}] && [{"\\sent"}, {}][..1] == [{"\\sent"}];
    assert FirstFlags(b[..1], [{"\\sent"}], q) == {"\\sent"};
    assert "\\sent" in {"\\sent"} * {"\\all", "\\trash", "\\junk", "\\drafts", "\\important", "\\sent", "\\flagged"};
    assert q == GMAIL + [SEPARATOR] + "Sent Mail";
    DirOf(GMAIL, "Sent Mail");
    assert q != "/INBOX" by {
      assert |q| != |"/INBOX"|;
    }
    NoSpecialDummy(q);
  }

  lemma NoSpecialDummy(q: Path)
    requires q != "/INBOX"
    ensures !Special(q, DUMMY_FLAGS)
  {
  }

  /** Exactly the root and all paths above the mailboxes are there. */
  ghost predicate ExactPaths(paths: set<Path>, accepted: seq<Path>) {
    forall q :: q in paths <==> q == ROOT || SomeAbove(q, accepted)
  }

  /** Exactly those are dummies that are no mailbox. */
  ghost predicate ExactDummies(dummies: set<Path>, accepted: seq<Path>) {
    forall q :: q in dummies <==> q != ROOT && SomeAbove(q, accepted) && q !in accepted
  }

  /** Each collection is in the one of the path directly above, or in the root. */
  ghost predicate InTree(reported: map<Path, Collection>) {
    forall q :: q in reported && q != ROOT ==>
      var p := reported[q].parent;
      p == ROOT || (p in reported && Child(p, q))
  }

  /** Each collection has stayed where it was put when its path was met first. */
  ghost predicate Placed(reported: map<Path, Collection>, accepted: seq<Path>, flags: seq<set<string>>) {
    && |flags| == |accepted|
    && forall q :: q in reported && q != ROOT ==>
         reported[q].parent == ParentOf(q, FirstFlags(accepted, flags, q))
  }

  /** A collection cannot be selected if its first flags say so, unless it was a dummy and has become real. */
  ghost predicate Closed(reported: map<Path, Collection>, accepted: seq<Path>, flags: seq<set<string>>) {
    && |flags| == |accepted|
    && forall q :: q in reported && q != ROOT ==>
         (reported[q].noSelect <==>
            "\\noselect" in FirstFlags(accepted, flags, q) && !(MetAsDummy(accepted, q) && q in accepted))
  }

  /** Dummies cannot be selected. */
  ghost predicate DummiesClosed(dummies: set<Path>, reported: map<Path, Collection>) {
    forall q :: q in dummies ==> q in reported && reported[q].noSelect
  }

  ghost predicate PathsReached(before: set<Path>, current: Path, now: set<Path>) {
    forall q :: q in now <==> q in before || Above(q, current)
  }

  ghost predicate DummiesReached(before: set<Path>, dummies: set<Path>, current: Path, path: Path, now: set<Path>) {
    forall q :: q in now <==>
      (q in dummies || (q !in before && Above(q, current))) && (current == path ==> q != path)
  }

  ghost predicate ParentsReached(before: map<Path, Collection>, path: Path, flags: set<string>,
                                 now: map<Path, Collection>) {
    forall q :: q in now && q != ROOT ==>
      now[q].parent == if q in before then before[q].parent else ParentOf(q, FlagsAlong(q, path, flags))
  }

  ghost predicate ClosedReached(before: map<Path, Collection>, dummies: set<Path>, current: Path, path: Path,
                                flags: set<string>, now: map<Path, Collection>) {
    forall q :: q in now && q != ROOT ==>
      (now[q].noSelect <==>
         if q in before then before[q].noSelect && !(current == path && q == path && q in dummies)
         else "\\noselect" in FlagsAlong(q, path, flags))
  }

  /** Only the mailbox itself, if it was a dummy, opens. */
  lemma ClosedStep(before: map<Path, Collection>, dummies: set<Path>, parentPath: Path, current: Path, path: Path,
                   flags: set<string>, now: map<Path, Collection>, next: map<Path, Collection>)
    requires ClosedReached(before, dummies, parentPath, path, flags, now) && parentPath != path
    requires now.Keys <= next.Keys <= now.Keys + {current} && dummies <= before.Keys <= now.Keys
    requires forall q :: q in now && q != current ==> next[q].noSelect == now[q].noSelect
    requires current in next
    requires current in now ==>
               (next[current].noSelect <==> now[current].noSelect && !(current == path && current in dummies))
    requires current !in now ==> (next[current].noSelect <==> "\\noselect" in FlagsAlong(current, path, flags))
    ensures ClosedReached(before, dummies, current, path, flags, next)
  {
    hide FlagsAlong;
  }

  lemma PathsStep(before: set<Path>, parentPath: Path, part: string, now: set<Path>)
    requires SEPARATOR !in part && PathsReached(before, parentPath, now)
    ensures PathsReached(before, parentPath + [SEPARATOR] + part, now + {parentPath + [SEPARATOR] + part})
  {
    forall q
      ensures Above(q, parentPath + [SEPARATOR] + part) <==>
                Above(q, parentPath) || q == parentPath + [SEPARATOR] + part
    {
      AboveStep(parentPath, part, q);
    }
    hide Above;
  }

  lemma BeforeIsReached(before: set<Path>, dummies: set<Path>, current: Path, now: set<Path>)
    requires PathsReached(before, current, now)
    ensures before <= now
  {
  }

  /** Until the mailbox itself is reached, its path is a dummy exactly if it was one before. */
  lemma StillDummy(before: set<Path>, dummies: set<Path>, parentPath: Path, part: string, path: Path, now: set<Path>)
    requires DummiesReached(before, dummies, parentPath, path, now) && parentPath != path
    ensures var current := parentPath + [SEPARATOR] + part;
            current == path ==> (current in now <==> current in dummies)
  {
    var current := parentPath + [SEPARATOR] + part;
    assert !Above(current, parentPath) by {
      assert |current| > |parentPath|;
    }
  }

  lemma NotBefore(before: set<Path>, current: Path, now: set<Path>, q: Path)
    requires PathsReached(before, current, now)
    ensures q in before ==> q in now
  {
  }

  lemma DummiesStep(before: set<Path>, dummies: set<Path>, parentPath: Path, part: string, current: Path, path: Path,
                    paths: set<Path>, now: set<Path>)
    requires SEPARATOR !in part && dummies <= before && parentPath != path
    requires PathsReached(before, parentPath, paths) && DummiesReached(before, dummies, parentPath, path, now)
    requires current == parentPath + [SEPARATOR] + part
    ensures current == path ==> DummiesReached(before, dummies, current, path, now - {current})
    ensures current != path && current in paths ==> DummiesReached(before, dummies, current, path, now)
    ensures current != path && current !in paths ==> DummiesReached(before, dummies, current, path, now + {current})
    ensures current !in paths ==> current !in now
  {
    forall q
      ensures Above(q, current) <==> Above(q, parentPath) || q == current
    {
      AboveStep(parentPath, part, q);
    }
    assert !Above(current, parentPath);
    hide Above;
  }

  /** A dummy becomes real where it is. */
  lemma BecomesReal(before: map<Path, Collection>, path: Path, flags: set<string>, current: Path, dummies: set<Path>,
                    now: map<Path, Collection>)
    requires ParentsReached(before, path, flags, now) && InTree(now) && DummiesClosed(dummies, now) && current in now
    ensures var next := now[current := now[current].(noSelect := false)];
            ParentsReached(before, path, flags, next) && InTree(next) && DummiesClosed(dummies - {current}, next)
  {
    hide Child, ParentOf, FlagsAlong;
  }

  /** A new collection is put into the one above it or into the root. */
  lemma IsAdded(before: map<Path, Collection>, path: Path, flags: set<string>, parentPath: Path, current: Path,
                c: Collection, dummies: set<Path>, now: map<Path, Collection>)
    requires ParentsReached(before, path, flags, now) && InTree(now) && DummiesClosed(dummies, now)
    requires parentPath in now && Child(parentPath, current) && current !in now && current !in before
    requires c.parent in {ROOT, parentPath} && c.parent == ParentOf(current, FlagsAlong(current, path, flags))
    ensures var next := now[current := c];
            && ParentsReached(before, path, flags, next) && InTree(next) && DummiesClosed(dummies, next)
            && (c.noSelect ==> DummiesClosed(dummies + {current}, next))
  {
    hide Child, ParentOf, FlagsAlong;
  }

  class GmailRetrieveCollectionsTask {
    const subscriptionEnabled: bool
    const m_fullReportedCollections: set<string>
    var m_reportedCollections: map<Path, Collection>
    var m_dummyCollections: set<Path>
    /** The paths of all mailboxes that have been taken. */
    ghost var accepted: seq<Path>
    /** Their flags. */
    ghost var flagsOf: seq<set<string>>

    predicate Accepts(d: Descriptor) {
      (subscriptionEnabled ==> d.name in m_fullReportedCollections) && BoxName(d.name) != "[Gmail]/Chats"
    }

    ghost predicate Valid()
      reads this
    {
      && ExactPaths(m_reportedCollections.Keys, accepted) && ExactDummies(m_dummyCollections, accepted)
      && InTree(m_reportedCollections) && Placed(m_reportedCollections, accepted, flagsOf)
      && Closed(m_reportedCollections, accepted, flagsOf)
      && DummiesClosed(m_dummyCollections, m_reportedCollections)
    }

    constructor (subscription: bool, full: set<string>, root: Collection)
      ensures Valid() && accepted == [] && flagsOf == [] && m_reportedCollections == map[ROOT := root]
      ensures subscriptionEnabled == subscription && m_fullReportedCollections == full
    {
      subscriptionEnabled, m_fullReportedCollections := subscription, full;
      m_reportedCollections, m_dummyCollections, accepted, flagsOf := map[ROOT := root], {}, [], [];
    }

    /** What has been added so far along the path of a mailbox; before it there were `before` and `dummies`. */
    ghost predicate Reached(before: map<Path, Collection>, dummies: set<Path>, current: Path, path: Path,
                            flags: set<string>)
      reads this
    {
      && PathsReached(before.Keys, current, m_reportedCollections.Keys)
      && DummiesReached(before.Keys, dummies, current, path, m_dummyCollections)
      && ParentsReached(before, path, flags, m_reportedCollections)
      && ClosedReached(before, dummies, current, path, flags, m_reportedCollections)
      && InTree(m_reportedCollections) && DummiesClosed(m_dummyCollections, m_reportedCollections)
      && current in m_reportedCollections
    }

    /** The next part of the path: a new collection, or the real one for a dummy. */
    method AddPart(ghost before: map<Path, Collection>, ghost dummies: set<Path>, parentPath: Path, part: string,
                   ghost path: Path, flags: set<string>, isDummy: bool)
      returns (currentPath: Path)
      requires SEPARATOR !in part && ROOT in before && ROOT !in dummies && dummies <= before.Keys && parentPath != path
      requires Reached(before, dummies, parentPath, path, flags)
      requires isDummy <==> parentPath + [SEPARATOR] + part != path
      modifies this`m_reportedCollections, this`m_dummyCollections
      ensures currentPath == parentPath + [SEPARATOR] + part
      ensures Reached(before, dummies, currentPath, path, flags)
    {
      assert parentPath != path;
      StillDummy(before.Keys, dummies, parentPath, part, path, m_dummyCollections);
      currentPath := parentPath + [SEPARATOR] + part;
      PathsStep(before.Keys, parentPath, part, m_reportedCollections.Keys);
      DummiesStep(before.Keys, dummies, parentPath, part, currentPath, path, m_reportedCollections.Keys,
                  m_dummyCollections);
      DirOf(parentPath, part);
      assert Child(parentPath, currentPath);
      assert ParentOf(currentPath, if isDummy then DUMMY_FLAGS else flags)
          == if Special(currentPath, if isDummy then DUMMY_FLAGS else flags) then ROOT else parentPath;
      NotBefore(before.Keys, parentPath, m_reportedCollections.Keys, currentPath);
      BeforeIsReached(before.Keys, dummies, parentPath, m_reportedCollections.Keys);
      hide PathsReached, DummiesReached, ParentsReached, InTree, DummiesClosed, Special, ParentOf, Dir, Child, Above,
           ClosedReached;
      ghost var now := m_reportedCollections;
      if currentPath in m_reportedCollections {
        assert m_reportedCollections.Keys + {currentPath} == m_reportedCollections.Keys;
        if !isDummy {
          if currentPath in m_dummyCollections {
            BecomesReal(before, path, flags, currentPath, m_dummyCollections, m_reportedCollections);
            var c := m_reportedCollections[currentPath];
            m_dummyCollections := m_dummyCollections - {currentPath};
            m_reportedCollections := m_reportedCollections[currentPath := c.(noSelect := false)];
            assert m_reportedCollections.Keys == old(m_reportedCollections).Keys;
          } else {
            assert m_dummyCollections - {currentPath} == m_dummyCollections;
          }
        }
        ClosedStep(before, dummies, parentPath, currentPath, path, flags, now, m_reportedCollections);
        assert Reached(before, dummies, currentPath, path, flags);
        return;
      }
      var currentFlags := if isDummy then DUMMY_FLAGS else flags;
      var parent := if Special(currentPath, currentFlags) then ROOT else parentPath;
      var c := Collection(parent, "\\noselect" in currentFlags);
      IsAdded(before, path, flags, parentPath, currentPath, c, m_dummyCollections, m_reportedCollections);
      m_reportedCollections := m_reportedCollections[currentPath := c];
      assert m_reportedCollections.Keys == old(m_reportedCollections).Keys + {currentPath};
      if isDummy {
        m_dummyCollections := m_dummyCollections + {currentPath};
      } else {
        assert m_dummyCollections - {currentPath} == m_dummyCollections;
      }
      ClosedStep(before, dummies, parentPath, currentPath, path, flags, now, m_reportedCollections);
      assert Reached(before, dummies, currentPath, path, flags);
    }

    /** One mailbox with all the collections above it, or nothing for a phantom or the chats. */
    method AddMailBox(d: Descriptor)
      requires Valid()
      modifies this
      ensures Valid() && accepted == old(accepted) + if Accepts(d) then [[SEPARATOR] + BoxName(d.name)] else []
      ensures flagsOf == old(flagsOf) + if Accepts(d) then [d.flags] else []
      ensures !Accepts(d) ==> unchanged(this)
    {
      if subscriptionEnabled && d.name !in m_fullReportedCollections {
        return;
      }
      var boxName := BoxName(d.name);
      if boxName == CHATS {
        return;
      }
      JoinSplit(boxName);
      ghost var before, dummies, path := m_reportedCollections, m_dummyCollections, [SEPARATOR] + boxName;
      hide *;
      AddPath(Split(boxName), d.flags);
      AcceptedExactly(accepted, path, before.Keys, dummies, m_reportedCollections.Keys, m_dummyCollections);
      PlacedLonger(before, accepted, flagsOf, path, d.flags, m_reportedCollections);
      ClosedLonger(before, dummies, accepted, flagsOf, path, d.flags, m_reportedCollections);
      accepted, flagsOf := accepted + [path], flagsOf + [d.flags];
    }

    method AddPath(pathParts: seq<string>, flags: set<string>)
      requires Valid() && pathParts != [] && NoSeparator(pathParts)
      modifies this`m_reportedCollections, this`m_dummyCollections
      ensures Reached(old(m_reportedCollections), old(m_dummyCollections), Join(pathParts), Join(pathParts), flags)
    {
      ghost var before, dummies, path := m_reportedCollections, m_dummyCollections, Join(pathParts);
      var parentPath, j := ROOT, 0;
      JoinStart(pathParts);
      AtRoot(before, dummies, path, flags, accepted);
      hide Reached, Join, NoSeparator, Valid;
      while j < |pathParts|
        invariant 0 <= j <= |pathParts| && parentPath == Join(pathParts[..j])
        invariant Reached(before, dummies, parentPath, path, flags)
      {
        JoinNext(pathParts, j);
        parentPath := AddPart(before, dummies, parentPath, pathParts[j], path, flags, j != |pathParts| - 1);
        j := j + 1;
      }
      assert pathParts[..j] == pathParts;
    }

    /**
     The answer of the server; the folder of Gmail itself is only needed while the tree is built. A collection is left
     without its parent exactly if it is directly in that folder and was no system folder when its path was met first.
     */
    method OnMailBoxesReceived(descriptors: seq<Descriptor>)
      requires Valid()
      modifies this
      ensures accepted == old(accepted) + PathsOf(descriptors) && flagsOf == old(flagsOf) + FlagsOf(descriptors)
      ensures |flagsOf| == |accepted|
      ensures forall q :: q in m_reportedCollections <==> q != GMAIL && (q == ROOT || SomeAbove(q, accepted))
      ensures forall q :: q in m_dummyCollections <==> q != ROOT && SomeAbove(q, accepted) && q !in accepted
      ensures forall q :: q in m_reportedCollections && q != ROOT ==>
                m_reportedCollections[q].parent == ParentOf(q, FirstFlags(accepted, flagsOf, q))
      ensures Closed(m_reportedCollections, accepted, flagsOf)
      ensures forall q :: q in m_reportedCollections && q != ROOT ==>
                (m_reportedCollections[q].parent !in m_reportedCollections <==>
                   Dir(q) == GMAIL && !Special(q, FirstFlags(accepted, flagsOf, q)))
    {
      hide Special, FirstFlags, Dir, SomeAbove, BoxName;
      var i := 0;
      while i < |descriptors|
        invariant 0 <= i <= |descriptors| && Valid() && accepted == old(accepted) + PathsOf(descriptors[..i])
        invariant flagsOf == old(flagsOf) + FlagsOf(descriptors[..i])
      {
        assert descriptors[..i + 1][..i] == descriptors[..i];
        AddMailBox(descriptors[i]);
        i := i + 1;
      }
      assert descriptors[..i] == descriptors;
      forall q | q in m_reportedCollections && q != ROOT && m_reportedCollections[q].parent == ROOT
        ensures ROOT != GMAIL
      {
      }
      m_reportedCollections := m_reportedCollections - {GMAIL};
    }

    /** The paths of those mailboxes that are taken. */
    ghost function PathsOf(descriptors: seq<Descriptor>): seq<Path> {
      if descriptors == [] then [] else
        var d := descriptors[|descriptors| - 1];
        PathsOf(descriptors[..|descriptors| - 1]) + if Accepts(d) then [[SEPARATOR] + BoxName(d.name)] else []
    }

    /** Their flags. */
    ghost function FlagsOf(descriptors: seq<Descriptor>): seq<set<string>> {
      if descriptors == [] then [] else
        var d := descriptors[|descriptors| - 1];
        FlagsOf(descriptors[..|descriptors| - 1]) + if Accepts(d) then [d.flags] else []
    }
  }

  lemma JoinShorter(parts: seq<string>, k: nat)
    requires k < |parts|
    ensures |Join(parts[..k])| < |Join(parts)|
  {
    assert parts == parts[..k] + parts[k..];
    JoinConcat(parts[..k], parts[k..]);
    JoinFirst(parts[k..]);
  }

  lemma JoinStart(parts: seq<string>)
    requires parts != []
    ensures Join(parts[..0]) == ROOT && Join(parts) != ROOT
  {
    JoinShorter(parts, 0);
  }

  lemma JoinNext(parts: seq<string>, k: nat)
    requires k < |parts| && NoSeparator(parts)
    ensures Join(parts[..k + 1]) == Join(parts[..k]) + [SEPARATOR] + parts[k] && SEPARATOR !in parts[k]
    ensures Join(parts[..k]) != Join(parts)
    ensures Join(parts[..k + 1]) == Join(parts) <==> k == |parts| - 1
  {
    assert parts[..k + 1][..k] == parts[..k];
    JoinShorter(parts, k);
    if k + 1 < |parts| {
      JoinShorter(parts, k + 1);
    } else {
      assert parts[..k + 1] == parts;
    }
  }

  lemma AtRoot(before: map<Path, Collection>, dummies: set<Path>, path: Path, flags: set<string>, accepted: seq<Path>)
    requires ExactPaths(before.Keys, accepted) && ExactDummies(dummies, accepted) && path != ROOT
    ensures PathsReached(before.Keys, ROOT, before.Keys) && DummiesReached(before.Keys, dummies, ROOT, path, dummies)
    ensures ClosedReached(before, dummies, ROOT, path, flags, before)
    ensures ParentsReached(before, path, flags, before) && ROOT in before && ROOT !in dummies && dummies <= before.Keys
  {
    hide SomeAbove, ParentOf, FlagsAlong;
  }

  lemma FirstFlagsLast(accepted: seq<Path>, flags: seq<set<string>>, path: Path, more: set<string>, q: Path)
    requires |accepted| == |flags|
    ensures FirstFlags(accepted + [path], flags + [more], q)
         == if SomeAbove(q, accepted) then FirstFlags(accepted, flags, q) else FlagsAlong(q, path, more)
  {
    assert (accepted + [path])[..|accepted|] == accepted && (flags + [more])[..|flags|] == flags;
  }

  /** With one more mailbox, the paths above it are added, and only that of the mailbox itself is no dummy. */
  lemma AcceptedExactly(accepted: seq<Path>, path: Path, before: set<Path>, dummies: set<Path>, paths: set<Path>,
                        now: set<Path>)
    requires ExactPaths(before, accepted) && ExactDummies(dummies, accepted) && path != ROOT
    requires PathsReached(before, path, paths) && DummiesReached(before, dummies, path, path, now)
    ensures ExactPaths(paths, accepted + [path]) && ExactDummies(now, accepted + [path])
  {
    forall q
      ensures SomeAbove(q, accepted + [path]) <==> SomeAbove(q, accepted) || Above(q, path)
      ensures q in accepted ==> SomeAbove(q, accepted)
    {
      SomeAboveLast(q, accepted, path);
    }
    hide SomeAbove, Above;
    assert forall q :: q in accepted + [path] <==> q in accepted || q == path;
  }

  lemma PlacedLonger(before: map<Path, Collection>, accepted: seq<Path>, flags: seq<set<string>>, path: Path,
                     more: set<string>, now: map<Path, Collection>)
    requires ExactPaths(before.Keys, accepted) && Placed(before, accepted, flags)
    requires ParentsReached(before, path, more, now)
    ensures Placed(now, accepted + [path], flags + [more])
  {
    forall q | q in now && q != ROOT
      ensures now[q].parent == ParentOf(q, FirstFlags(accepted + [path], flags + [more], q))
    {
      FirstFlagsLast(accepted, flags, path, more, q);
      hide SomeAbove, FirstFlags, ParentOf, FlagsAlong;
    }
  }

  lemma ClosedLonger(before: map<Path, Collection>, dummies: set<Path>, accepted: seq<Path>, flags: seq<set<string>>,
                     path: Path, more: set<string>, now: map<Path, Collection>)
    requires ExactPaths(before.Keys, accepted) && ExactDummies(dummies, accepted) && Closed(before, accepted, flags)
    requires ClosedReached(before, dummies, path, path, more, now)
    ensures Closed(now, accepted + [path], flags + [more])
  {
    forall q | q in now && q != ROOT
      ensures now[q].noSelect <==>
              && "\\noselect" in FirstFlags(accepted + [path], flags + [more], q)
              && !(MetAsDummy(accepted + [path], q) && q in accepted + [path])
    {
      FirstFlagsLast(accepted, flags, path, more, q);
      MetLast(accepted, path, q);
      if SomeAbove(q, accepted) && q !in accepted {
        NeverDummy(accepted, q);
      }
      hide SomeAbove, FirstFlags, MetAsDummy;
    }
  }

  lemma MetLast(accepted: seq<Path>, path: Path, q: Path)
    ensures MetAsDummy(accepted + [path], q) <==> if SomeAbove(q, accepted) then MetAsDummy(accepted, q) else path != q
    ensures q in accepted + [path] <==> q in accepted || q == path
  {
    assert (accepted + [path])[..|accepted|] == accepted;
  }

  /** A path that was met and is no mailbox was met as a dummy. */
  lemma {:induction false} NeverDummy(accepted: seq<Path>, q: Path)
    requires SomeAbove(q, accepted) && q !in accepted
    ensures MetAsDummy(accepted, q)
  {
    var n := |accepted| - 1;
    assert accepted[n] in accepted && accepted[..n] + [accepted[n]] == accepted;
    if SomeAbove(q, accepted[..n]) {
      NeverDummy(accepted[..n], q);
    }
  }

  lemma SomeAboveLast(q: Path, accepted: seq<Path>, path: Path)
    ensures SomeAbove(q, accepted + [path]) <==> SomeAbove(q, accepted) || Above(q, path)
    ensures q in accepted ==> SomeAbove(q, accepted)
  {
    var all := accepted + [path];
    assert all[|accepted|] == path;
    if SomeAbove(q, accepted) {
      var i :| 0 <= i < |accepted| && Above(q, accepted[i]);
      assert Above(q, all[i]);
    }
    if q in accepted {
      var i :| 0 <= i < |accepted| && accepted[i] == q;
      assert Above(q, accepted[i]);
    }
  }
}
