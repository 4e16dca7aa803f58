/** Packaging a project: the fixpoint over the import roots of the files already taken, and
    the pass that gives every package an `__init__.py`. Archive names are sequences of path
    components. */
module ImportClosure {
  import opened Prelude

  type Arc = seq<string>

  /** An archive entry: a file of the project, or one made up. */
  datatype Entry = Source(path: string) | Synthetic

  // ---------------------------------------------------------------- import roots

  /** An import statement as the syntax tree gives it; texts are stripped. */
  datatype Import = Plain(moduleName: string) | From(moduleName: string, name: string, level: nat)

  /** The parts of a dotted name that are not empty. */
  function Parts(s: string): seq<string> {
    if s == "" then []
    else if s[0] == '.' then Parts(s[1..])
    else
      var n := Head(s);
      [s[..n]] + Parts(s[n..])
  }

  /** How far the first part of a dotted name goes. */
  function Head(s: string): (n: nat)
    ensures n <= |s| && (s != "" && s[0] != '.' ==> n > 0)
  {
    if s == "" || s[0] == '.' then 0 else 1 + Head(s[1..])
  }

  /** `name.split(".", 1)[0]` */
  function First(name: string): string {
    name[..Head(name)]
  }

  /** `_import_root_names_from_ast_item` */
  function AbsoluteRoots(i: Import): set<string> {
    match i
    case Plain(m) => if m == "" then {} else {First(m)}
    case From(m, name, level) =>
      if m != "" then {First(m)} else if name != "" && level == 0 then {First(name)} else {}
  }

  /** One import of `_collect_relative_import_roots_from_entry`. */
  function RelativeRoots(i: Import, arc: Arc): set<string> {
    if !i.From? || i.level == 0 then {} else
    var package := if arc == [] then [] else arc[..|arc| - 1];
    var kept := if |package| + 1 >= i.level then package[..|package| + 1 - i.level] else [];
    var candidate := kept + Parts(i.moduleName) + (if i.name != "" && i.name != "*" then Parts(i.name) else []);
    if candidate == [] then {} else {candidate[0]}
  }

  /** What the environment knows: the imports of a file (none, if it is no Python source), the
      files of an import root, where they are, and which names belong to the standard library. */
  datatype Project = Project(
    imports: string -> seq<Import>, files: string -> set<Arc>, pathOf: Arc -> string, stdlib: set<string>)

  function RootsIn(imports: seq<Import>, arc: Arc): set<string> {
    if imports == [] then {}
    else AbsoluteRoots(imports[0]) + RelativeRoots(imports[0], arc) + RootsIn(imports[1..], arc)
  }

  function RootsOf(p: Project, arc: Arc, e: Entry): set<string> {
    if e.Synthetic? then {} else RootsIn(p.imports(e.path), arc)
  }

  // ---------------------------------------------------------------- which roots are named

  predicate Dots(s: string) {
    forall c <- s :: c == '.'
  }

  /** `part` is the first part of a dotted name, `k` the number of dots before it. */
  predicate FirstPartAt(s: string, part: string, k: nat) {
    && k + |part| <= |s| && part != "" && '.' !in part && Dots(s[..k]) && s[k..k + |part|] == part
    && (k + |part| < |s| ==> s[k + |part|] == '.')
  }

  ghost predicate IsFirstPart(s: string, part: string) {
    exists k: nat :: FirstPartAt(s, part, k)
  }

  lemma {:induction false} HeadIs(s: string)
    ensures '.' !in s[..Head(s)] && (Head(s) < |s| ==> s[Head(s)] == '.')
  {
    if s != "" && s[0] != '.' {
      HeadIs(s[1..]);
      assert s[..Head(s)] == [s[0]] + s[1..][..Head(s[1..])];
    }
  }

  lemma DotBehind(s: string, part: string)
    requires s != "" && s[0] == '.' && IsFirstPart(s[1..], part)
    ensures IsFirstPart(s, part)
  {
    var k: nat :| FirstPartAt(s[1..], part, k);
    assert s[..k + 1] == [s[0]] + s[1..][..k];
    assert s[k + 1..k + 1 + |part|] == s[1..][k..k + |part|];
    assert FirstPartAt(s, part, k + 1);
  }

  lemma {:induction false} PartsBegin(s: string)
    ensures Parts(s) == [] <==> Dots(s)
    ensures Parts(s) != [] ==> IsFirstPart(s, Parts(s)[0])
  {
    hide IsFirstPart;
    if s != "" && s[0] == '.' {
      PartsBegin(s[1..]);
      assert forall c :: c in s <==> c == s[0] || c in s[1..];
      if Parts(s) != [] {
        DotBehind(s, Parts(s)[0]);
      }
    } else if s != "" {
      HeadIs(s);
      FirstPartIsHere(s);
      assert s[0] in s;
    }
  }

  lemma FirstPartIsHere(s: string)
    requires s != "" && s[0] != '.' && '.' !in s[..Head(s)] && (Head(s) < |s| ==> s[Head(s)] == '.')
    ensures IsFirstPart(s, s[..Head(s)])
  {
    assert s[..0] == "";
    assert FirstPartAt(s, s[..Head(s)], 0);
  }

  lemma OnlyDotsBefore(s: string, part: string, k: nat, i: nat)
    requires FirstPartAt(s, part, k) && i < |s| && s[i] != '.'
    ensures k <= i && s[k] != '.'
  {
    assert forall j :: 0 <= j < k ==> s[j] == s[..k][j] && s[..k][j] in s[..k];
    assert s[k] == s[k..k + |part|][0] == part[0] && part[0] in part;
  }

  lemma PartReachesTheDot(s: string, a: string, b: string, k: nat)
    requires FirstPartAt(s, a, k) && FirstPartAt(s, b, k)
    ensures |b| <= |a|
  {
    assert forall j :: 0 <= j < |b| ==> s[k + j] == s[k..k + |b|][j] && b[j] in b;
  }

  lemma FirstPartIsUnique(s: string, a: string, b: string)
    requires IsFirstPart(s, a) && IsFirstPart(s, b)
    ensures a == b && !Dots(s)
  {
    hide FirstPartAt;
    var i: nat :| FirstPartAt(s, a, i);
    var j: nat :| FirstPartAt(s, b, j);
    PartIsThere(s, a, i);
    PartIsThere(s, b, j);
    OnlyDotsBefore(s, a, i, j);
    OnlyDotsBefore(s, b, j, i);
    PartReachesTheDot(s, a, b, i);
    PartReachesTheDot(s, b, a, i);
  }

  lemma PartIsThere(s: string, part: string, k: nat)
    requires FirstPartAt(s, part, k)
    ensures k + |part| <= |s| && s[k..k + |part|] == part && k < |s| && s[k] != '.' && !Dots(s)
  {
    assert s[k] == s[k..k + |part|][0] == part[0] && part[0] in part;
    assert s[k] in s;
  }

  /** The root of a dotted name is what stands before its first dot. */
  predicate BeforeDot(name: string, root: string) {
    root <= name && '.' !in root && (|root| < |name| ==> name[|root|] == '.')
  }

  /** What an import statement in the file `arc` names as a root.
      - An import names the root of its module, and `from . import` of no module and no dots
        the root of its name.
      - A relative import that leaves a package names the outermost package of the file.
      - One that leaves none names the first part of its module, or of its name if the module
        has no part; a star names nothing. */
  ghost predicate NamesRoot(i: Import, arc: Arc, root: string) {
    || (i.moduleName != "" && BeforeDot(i.moduleName, root))
    || (i.From? && i.moduleName == "" && i.level == 0 && i.name != "" && BeforeDot(i.name, root))
    || (i.From? && i.level > 0
        && if |arc| > i.level then root == arc[0]
           else IsFirstPart(i.moduleName, root) || (Dots(i.moduleName) && i.name != "*" && IsFirstPart(i.name, root)))
  }

  lemma FirstIsBeforeDot(name: string, root: string)
    ensures root == First(name) <==> BeforeDot(name, root)
  {
    HeadIs(name);
    var first := First(name);
    if BeforeDot(name, root) {
      assert root == name[..|root|];
    }
  }

  lemma AbsoluteRootsAreNamed(i: Import, root: string)
    ensures root in AbsoluteRoots(i) <==>
      (|| (i.moduleName != "" && BeforeDot(i.moduleName, root))
       || (i.From? && i.moduleName == "" && i.level == 0 && i.name != "" && BeforeDot(i.name, root)))
  {
    FirstIsBeforeDot(i.moduleName, root);
    if i.From? {
      FirstIsBeforeDot(i.name, root);
    }
  }

  lemma FirstOfParts(s: string, part: string)
    ensures Parts(s) != [] && Parts(s)[0] == part <==> IsFirstPart(s, part)
    ensures Parts(s) == [] <==> Dots(s)
  {
    PartsBegin(s);
    if IsFirstPart(s, part) {
      FirstPartIsUnique(s, part, part);
      FirstPartIsUnique(s, part, Parts(s)[0]);
    }
  }

  lemma RelativeRootsAreNamed(i: Import, arc: Arc, root: string)
    ensures root in RelativeRoots(i, arc) <==>
      (i.From? && i.level > 0
       && if |arc| > i.level then root == arc[0]
          else IsFirstPart(i.moduleName, root) || (Dots(i.moduleName) && i.name != "*" && IsFirstPart(i.name, root)))
  {
    hide IsFirstPart, Parts, Dots;
    if i.From? && i.level > 0 {
      FirstOfParts(i.moduleName, root);
      FirstOfParts(i.name, root);
      NothingInNothing(root);
    }
  }

  lemma NothingInNothing(part: string)
    ensures Parts("") == [] && !IsFirstPart("", part)
  {
  }

  /** Exactly the roots that the imports of a source file name, and none of a made-up file. */
  lemma {:induction false} RootsAreNamed(imports: seq<Import>, arc: Arc, root: string)
    ensures root in RootsIn(imports, arc) <==> exists k :: 0 <= k < |imports| && NamesRoot(imports[k], arc, root)
  {
    hide NamesRoot, AbsoluteRoots, RelativeRoots;
    if imports != [] {
      FirstRootsAreNamed(imports[0], arc, root);
      RootsAreNamed(imports[1..], arc, root);
      assert forall k :: 0 < k < |imports| ==> imports[k] == imports[1..][k - 1];
      assert forall k :: 0 <= k < |imports[1..]| ==> imports[1..][k] == imports[k + 1];
    }
  }

  lemma FirstRootsAreNamed(i: Import, arc: Arc, root: string)
    ensures root in AbsoluteRoots(i) + RelativeRoots(i, arc) <==> NamesRoot(i, arc, root)
  {
    hide AbsoluteRoots, RelativeRoots, BeforeDot, IsFirstPart, Dots;
    AbsoluteRootsAreNamed(i, root);
    RelativeRootsAreNamed(i, arc, root);
  }

  predicate Followed(p: Project, root: string) {
    root != "" && root !in p.stdlib
  }

  /** What it means that the entries are closed: they hold every file of every root, outside
      the standard library, that an import of one of their sources names. */
  lemma ClosedMeans(p: Project, entries: map<Arc, Entry>)
    ensures Closed(p, entries) <==>
      forall a, k, root ::
        a in entries && entries[a].Source? && 0 <= k < |p.imports(entries[a].path)|
        && NamesRoot(p.imports(entries[a].path)[k], a, root) && root != "" && root !in p.stdlib ==>
          p.files(root) <= entries.Keys
  {
    hide NamesRoot, RootsIn;
    forall a, root | a in entries && entries[a].Source?
      ensures root in RootsIn(p.imports(entries[a].path), a)
        <==> exists k :: 0 <= k < |p.imports(entries[a].path)| && NamesRoot(p.imports(entries[a].path)[k], a, root)
    {
      RootsAreNamed(p.imports(entries[a].path), a, root);
    }
  }

  // ---------------------------------------------------------------- the closure

  /** Every file of every root that an entry names is an entry. */
  ghost predicate Closed(p: Project, entries: map<Arc, Entry>) {
    forall a, r :: a in entries && r in RootsOf(p, a, entries[a]) && Followed(p, r) ==> p.files(r) <= entries.Keys
  }

  /** `later` keeps the entries of `entries`, and has only project files beyond them. */
  ghost predicate Extends(p: Project, entries: map<Arc, Entry>, later: map<Arc, Entry>) {
    && (forall a <- entries :: a in later && later[a] == entries[a])
    && (forall a <- later :: a !in entries ==> later[a] == Source(p.pathOf(a)))
  }

  /** Every closed extension of `initial` contains what has been taken. */
  ghost predicate Needed(p: Project, initial: map<Arc, Entry>, entries: map<Arc, Entry>) {
    forall m: map<Arc, Entry> :: Extends(p, initial, m) && Closed(p, m) ==> entries.Keys <= m.Keys
  }

  /** The roots that some entry names. */
  function AllRoots(p: Project, entries: map<Arc, Entry>): set<string> {
    set a, r | a in entries && r in RootsOf(p, a, entries[a]) :: r
  }

  method CollectRoots(p: Project, entries: map<Arc, Entry>) returns (roots: set<string>)
    ensures roots == AllRoots(p, entries)
  {
    roots := {};
    var rest := entries.Keys;
    while rest != {}
      invariant rest <= entries.Keys
      invariant forall r :: r in roots <==> exists a :: a in entries && a !in rest && r in RootsOf(p, a, entries[a])
      decreases |rest|
    {
      var a :| a in rest;
      rest := rest - {a};
      roots := roots + RootsOf(p, a, entries[a]);
    }
  }

  /** Entries with some project files beside them. */
  function Taking(p: Project, entries: map<Arc, Entry>, more: set<Arc>): map<Arc, Entry> {
    map a | a in entries.Keys + more :: if a in entries then entries[a] else Source(p.pathOf(a))
  }

  lemma TakingExtends(p: Project, entries: map<Arc, Entry>, more: set<Arc>)
    ensures Extends(p, entries, Taking(p, entries, more))
    ensures Taking(p, entries, more).Keys == entries.Keys + more
    ensures more <= entries.Keys ==> Taking(p, entries, more) == entries
  {
  }

  lemma TakingIs(p: Project, entries: map<Arc, Entry>, later: map<Arc, Entry>, more: set<Arc>)
    requires Extends(p, entries, later) && later.Keys == entries.Keys + more
    ensures later == Taking(p, entries, more)
  {
  }

  /** One file more, unless it is there. */
  lemma TakeOne(p: Project, entries: map<Arc, Entry>, later: map<Arc, Entry>, done: set<Arc>, a: Arc)
    requires Extends(p, entries, later) && later.Keys == entries.Keys + done
    ensures var next := if a in later then later else later[a := Source(p.pathOf(a))];
      Extends(p, entries, next) && next.Keys == entries.Keys + (done + {a})
  {
  }

  lemma Passed(rest: set<Arc>, done: set<Arc>, a: Arc)
    requires a in rest
    ensures (rest - {a}) + (done + {a}) == rest + done
  {
  }

  lemma UnionAdds(a: set<Arc>, b: set<Arc>)
    ensures a + b != a <==> !(b <= a)
  {
    if a + b == a {
      assert forall x :: x in b ==> x in a + b;
    }
  }

  /** The files of one root that are not there yet. */
  method AddRoot(p: Project, entries: map<Arc, Entry>, root: string) returns (later: map<Arc, Entry>, added: bool)
    ensures later == Taking(p, entries, p.files(root))
    ensures added <==> !(p.files(root) <= entries.Keys)
  {
    later, added := entries, false;
    var all := p.files(root);
    var rest := all;
    ghost var done: set<Arc> := {};
    assert entries.Keys == entries.Keys + done;
    while rest != {}
      invariant rest + done == all
      invariant Extends(p, entries, later) && later.Keys == entries.Keys + done
      invariant added <==> later.Keys != entries.Keys
      decreases |rest|
    {
      var a :| a in rest;
      TakeOne(p, entries, later, done, a);
      if a !in later {
        later := later[a := Source(p.pathOf(a))];
        added := true;
      }
      Passed(rest, done, a);
      rest, done := rest - {a}, done + {a};
    }
    assert done == all;
    TakingIs(p, entries, later, all);
    UnionAdds(entries.Keys, all);
  }

  lemma ExtendsTwice(p: Project, a: map<Arc, Entry>, b: map<Arc, Entry>, c: map<Arc, Entry>)
    requires Extends(p, a, b) && Extends(p, b, c)
    ensures Extends(p, a, c)
  {
  }

  /** A root that an entry names is needed with all its files. */
  lemma RootIsNeeded(p: Project, initial: map<Arc, Entry>, entries: map<Arc, Entry>, root: string)
    requires Needed(p, initial, entries) && Extends(p, initial, entries)
    requires root in AllRoots(p, entries) && Followed(p, root)
    ensures forall m: map<Arc, Entry> :: Extends(p, initial, m) && Closed(p, m) ==> p.files(root) <= m.Keys
  {
    forall m: map<Arc, Entry> | Extends(p, initial, m) && Closed(p, m) ensures p.files(root) <= m.Keys {
      var a :| a in entries && root in RootsOf(p, a, entries[a]);
      assert a in m && m[a] == entries[a];
    }
  }

  /** What a round has reached: the state between two roots. */
  ghost predicate Midway(p: Project, initial: map<Arc, Entry>, entries: map<Arc, Entry>, later: map<Arc, Entry>,
                         seen: set<string>) {
    && Extends(p, initial, entries) && Extends(p, entries, later) && Needed(p, initial, later)
    && forall r <- seen :: p.files(r) <= later.Keys
  }

  /** One more root keeps it so. */
  lemma RootStep(p: Project, initial: map<Arc, Entry>, entries: map<Arc, Entry>, later: map<Arc, Entry>,
                 seen: set<string>, root: string)
    requires Midway(p, initial, entries, later, seen)
    requires Needed(p, initial, entries) && root in AllRoots(p, entries) && Followed(p, root)
    ensures Midway(p, initial, entries, Taking(p, later, p.files(root)), seen + {root})
  {
    var next := Taking(p, later, p.files(root));
    TakingExtends(p, later, p.files(root));
    ExtendsTwice(p, entries, later, next);
    RootIsNeeded(p, initial, entries, root);
    forall m: map<Arc, Entry> | Extends(p, initial, m) && Closed(p, m) ensures next.Keys <= m.Keys {
      assert later.Keys <= m.Keys;
    }
  }

  /** One round: the files of every new root that the entries name. */
  method ExpandOnce(p: Project, initial: map<Arc, Entry>, entries: map<Arc, Entry>, seen: set<string>)
    returns (later: map<Arc, Entry>, seenLater: set<string>, added: bool)
    requires Extends(p, initial, entries) && Needed(p, initial, entries)
    requires forall r <- seen :: p.files(r) <= entries.Keys
    ensures Midway(p, initial, entries, later, seenLater)
    ensures if added then later.Keys != entries.Keys else later == entries && Closed(p, entries)
  {
    var roots := CollectRoots(p, entries);
    later, seenLater, added := entries, seen, false;
    var rest := roots;
    while rest != {}
      invariant rest <= roots && Midway(p, initial, entries, later, seenLater)
      invariant forall r <- roots :: r in rest || r in seenLater || !Followed(p, r)
      invariant if added then later.Keys != entries.Keys else later == entries
      decreases |rest|
    {
      var root :| root in rest;
      rest := rest - {root};
      if root == "" || root in seenLater || root in p.stdlib {
        continue;
      }
      RootStep(p, initial, entries, later, seenLater, root);
      TakingExtends(p, later, p.files(root));
      seenLater := seenLater + {root};
      var more;
      later, more := AddRoot(p, later, root);
      added := added || more;
    }
    if !added {
      AllFollowed(p, entries, roots, seenLater);
    }
  }

  lemma AllFollowed(p: Project, entries: map<Arc, Entry>, roots: set<string>, seen: set<string>)
    requires roots == AllRoots(p, entries) && forall r <- seen :: p.files(r) <= entries.Keys
    requires forall r <- roots :: r in seen || !Followed(p, r)
    ensures Closed(p, entries)
  {
    forall a, r | a in entries && r in RootsOf(p, a, entries[a]) && Followed(p, r) ensures p.files(r) <= entries.Keys {
      assert r in roots;
    }
  }

  /** `_expand_entries_with_project_import_roots`: it ends, because the files still to be taken
      get fewer; what was there stays; every root named by an entry has all its files taken;
      and nothing is taken that any such closure could do without. `universe` is any finite
      set that holds the files of all roots. */
  method ExpandWithImportRoots(p: Project, initial: map<Arc, Entry>, universe: set<Arc>) returns (entries: map<Arc, Entry>)
    requires forall r :: p.files(r) <= universe
    ensures Extends(p, initial, entries) && Closed(p, entries)
    ensures Needed(p, initial, entries)
    ensures forall a, k, root ::
      a in entries && entries[a].Source? && 0 <= k < |p.imports(entries[a].path)|
      && NamesRoot(p.imports(entries[a].path)[k], a, root) && root != "" && root !in p.stdlib ==>
        p.files(root) <= entries.Keys
  {
    entries := initial;
    var seen: set<string> := {};
    while true
      invariant Extends(p, initial, entries) && Needed(p, initial, entries)
      invariant forall r <- seen :: p.files(r) <= entries.Keys
      decreases |universe - entries.Keys|
    {
      var later, seenLater, added := ExpandOnce(p, initial, entries, seen);
      if !added {
        ClosedMeans(p, entries);
        return;
      }
      ExtendsTwice(p, initial, entries, later);
      TakesFromUniverse(p, initial, later, universe);
      FewerRemain(universe, entries.Keys, later.Keys);
      entries, seen := later, seenLater;
    }
  }

  /** The whole project is a closed extension, so nothing beyond it is needed. */
  lemma TakesFromUniverse(p: Project, initial: map<Arc, Entry>, later: map<Arc, Entry>, universe: set<Arc>)
    requires Needed(p, initial, later) && forall r :: p.files(r) <= universe
    ensures later.Keys <= initial.Keys + universe
  {
    TakingExtends(p, initial, universe);
    assert Closed(p, Taking(p, initial, universe));
  }

  lemma FewerRemain(universe: set<Arc>, before: set<Arc>, after: set<Arc>)
    requires before <= after && before != after && after <= before + universe
    ensures |universe - after| < |universe - before|
  {
    var x :| x in after && x !in before;
    assert universe - before == (universe - after) + (universe * (after - before));
    assert x in universe * (after - before);
    assert |universe - before| == |universe - after| + |universe * (after - before)|;
  }

  /** The closure is unique: two of them take the same files. */
  lemma ClosureIsUnique(p: Project, initial: map<Arc, Entry>, a: map<Arc, Entry>, b: map<Arc, Entry>)
    requires Extends(p, initial, a) && Closed(p, a) && Needed(p, initial, a)
    requires Extends(p, initial, b) && Closed(p, b) && Needed(p, initial, b)
    ensures a == b
  {
    assert a.Keys == b.Keys;
  }

  // ---------------------------------------------------------------- package inits

  const INIT := "__init__.py"

  /** The init of the package that the first `k` components name. */
  function InitOf(arc: Arc, k: nat): Arc
    requires k <= |arc|
  {
    arc[..k] + [INIT]
  }

  /** The inits of the packages above the entries. */
  function Inits(entries: map<Arc, Entry>): set<Arc> {
    set a, k: nat | a in entries && 0 < k < |a| :: InitOf(a, k)
  }

  function WithInits(entries: map<Arc, Entry>): map<Arc, Entry> {
    map a | a in entries.Keys + Inits(entries) :: if a in entries then entries[a] else Synthetic
  }

  /** Every package above an entry has its init. */
  ghost predicate HasInits(entries: map<Arc, Entry>) {
    forall a, k: nat :: a in entries && 0 < k < |a| ==> InitOf(a, k) in entries
  }

  /** The pass keeps what was there, adds exactly the missing inits, and leaves every package
      above any entry with one, the new ones included. */
  lemma InitsAreComplete(entries: map<Arc, Entry>)
    ensures HasInits(WithInits(entries))
    ensures forall a <- entries :: a in WithInits(entries) && WithInits(entries)[a] == entries[a]
    ensures forall a <- WithInits(entries) :: a !in entries ==>
      WithInits(entries)[a] == Synthetic && exists b, k: nat :: b in entries && 0 < k < |b| && a == InitOf(b, k)
  {
    var all := WithInits(entries);
    forall a, k: nat | a in all && 0 < k < |a| ensures InitOf(a, k) in all {
      if a in entries {
        assert InitOf(a, k) in Inits(entries);
      } else {
        var b, j: nat :| b in entries && 0 < j < |b| && a == InitOf(b, j);
        assert InitOf(a, k) == InitOf(b, k);
        assert InitOf(b, k) in Inits(entries);
      }
    }
  }

  /** Doing it twice changes nothing. */
  lemma InitsAreIdempotent(entries: map<Arc, Entry>)
    ensures WithInits(WithInits(entries)) == WithInits(entries)
  {
    InitsAreComplete(entries);
    var all := WithInits(entries);
    assert Inits(all) <= all.Keys;
  }

  /** The archive as a dictionary: a later entry of the same name wins. The empty name is
      normalised to a dot and stays. */
  function Deduped(list: seq<(Arc, Entry)>): map<Arc, Entry> {
    if list == [] then map[] else
    var last := list[|list| - 1];
    Deduped(list[..|list| - 1])[last.0 := last.1]
  }

  /** The inits that an archive name asks for and that are missing. */
  function MissingInits(arc: Arc, entries: map<Arc, Entry>): set<Arc> {
    set k: nat | 0 < k < |arc| && InitOf(arc, k) !in entries :: InitOf(arc, k)
  }

  method CollectInits(arc: Arc, entries: map<Arc, Entry>) returns (names: set<Arc>)
    ensures names == MissingInits(arc, entries)
  {
    names := {};
    if arc == [] {
      return;
    }
    var k := |arc| - 1;
    while k > 0
      invariant 0 <= k < |arc|
      invariant names == set j: nat | k < j < |arc| && InitOf(arc, j) !in entries :: InitOf(arc, j)
    {
      if InitOf(arc, k) !in entries {
        names := names + {InitOf(arc, k)};
      }
      k := k - 1;
    }
  }

  /** Of several entries with one name, the last one counts. */
  lemma {:induction false} TheLastOneCounts(list: seq<(Arc, Entry)>, a: Arc)
    ensures a in Deduped(list) <==> exists i :: 0 <= i < |list| && list[i].0 == a
    ensures a in Deduped(list) ==>
      exists i :: 0 <= i < |list| && list[i] == (a, Deduped(list)[a]) && forall j :: i < j < |list| ==> list[j].0 != a
  {
    if list != [] {
      var n := |list| - 1;
      TheLastOneCounts(list[..n], a);
      assert forall i :: 0 <= i < n ==> list[..n][i] == list[i];
      if list[n].0 == a {
        assert list[n] == (a, Deduped(list)[a]);
      }
    }
  }

  method Dedup(list: seq<(Arc, Entry)>) returns (entries: map<Arc, Entry>)
    ensures entries == Deduped(list)
  {
    entries := map[];
    for i := 0 to |list|
      invariant entries == Deduped(list[..i])
    {
      assert list[..i + 1][..i] == list[..i];
      entries := entries[list[i].0 := list[i].1];
    }
    assert list[..|list|] == list;
  }

  method CollectAllInits(entries: map<Arc, Entry>) returns (names: set<Arc>)
    ensures names == Inits(entries) - entries.Keys
  {
    names := {};
    var rest := entries.Keys;
    while rest != {}
      invariant rest <= entries.Keys
      invariant forall x :: x in names <==> exists a :: a in entries && a !in rest && x in MissingInits(a, entries)
      decreases |rest|
    {
      var a :| a in rest;
      rest := rest - {a};
      var more := CollectInits(a, entries);
      names := names + more;
    }
    forall x ensures x in names <==> x in Inits(entries) && x !in entries {
      if x in Inits(entries) && x !in entries {
        var a, k: nat :| a in entries && 0 < k < |a| && x == InitOf(a, k);
        assert x in MissingInits(a, entries);
      }
    }
  }

  lemma WhatTheArchiveHolds(list: seq<(Arc, Entry)>)
    ensures var entries := WithInits(Deduped(list));
      forall a :: a in entries && (forall i :: 0 <= i < |list| ==> list[i].0 != a) ==>
        entries[a] == Synthetic && exists i, k: nat :: 0 <= i < |list| && 0 < k < |list[i].0| && a == list[i].0[..k] + [INIT]
    ensures var entries := WithInits(Deduped(list));
      forall i :: 0 <= i < |list| && (forall j :: i < j < |list| ==> list[j].0 != list[i].0) ==>
        list[i].0 in entries && entries[list[i].0] == list[i].1
  {
    var deduped := Deduped(list);
    InitsAreComplete(deduped);
    forall a | a in WithInits(deduped) && (forall i :: 0 <= i < |list| ==> list[i].0 != a)
      ensures exists i, k: nat :: 0 <= i < |list| && 0 < k < |list[i].0| && a == list[i].0[..k] + [INIT]
    {
      TheLastOneCounts(list, a);
      var b, k: nat :| b in deduped && 0 < k < |b| && a == InitOf(b, k);
      TheLastOneCounts(list, b);
      var i :| 0 <= i < |list| && list[i].0 == b;
      assert 0 < k < |list[i].0| && a == list[i].0[..k] + [INIT];
    }
    forall a ensures a in deduped ==> a in WithInits(deduped) && WithInits(deduped)[a] == deduped[a] {}
    forall i | 0 <= i < |list| && (forall j :: i < j < |list| ==> list[j].0 != list[i].0)
      ensures list[i].0 in deduped && deduped[list[i].0] == list[i].1
    {
      TheLastOneCounts(list, list[i].0);
      var k :| 0 <= k < |list| && list[k] == (list[i].0, deduped[list[i].0])
        && forall j :: k < j < |list| ==> list[j].0 != list[i].0;
      assert k == i;
    }
    forall a | a in WithInits(deduped) && (forall i :: 0 <= i < |list| ==> list[i].0 != a)
      ensures WithInits(deduped)[a] == Synthetic
    {
      TheLastOneCounts(list, a);
    }
  }

  /** `_synthesize_package_init_entries` */
  method SynthesizePackageInits(list: seq<(Arc, Entry)>) returns (entries: map<Arc, Entry>)
    ensures entries == WithInits(Deduped(list))
    ensures HasInits(entries)
    ensures forall a :: a in entries && (forall i :: 0 <= i < |list| ==> list[i].0 != a) ==>
      entries[a] == Synthetic && exists i, k: nat :: 0 <= i < |list| && 0 < k < |list[i].0| && a == list[i].0[..k] + [INIT]
    ensures forall i :: 0 <= i < |list| && (forall j :: i < j < |list| ==> list[j].0 != list[i].0) ==>
      list[i].0 in entries && entries[list[i].0] == list[i].1
  {
    WhatTheArchiveHolds(list);
    var deduped := Dedup(list);
    var names := CollectAllInits(deduped);
    entries := deduped + map a | a in names :: Synthetic;
    assert entries == WithInits(deduped);
    InitsAreComplete(deduped);
  }
}
