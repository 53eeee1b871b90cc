/** uwsd's template wrapper: compiled templates are kept until the file system reports a
    change, while directories come and go and the event queue may overflow. */
module TemplateCache {
  import opened Wrappers
  import opened Text

  /** A directory's inode, and one of its entries. */
  type Id = nat

  datatype Entry = Entry(dir: Id, name: string)

  type Tree = map<Entry, Id>

  /** What the wrapper looks at in an inotify event. */
  datatype Notice = Notice(overflow: bool, gone: bool, isDir: bool, name: string)

  const OVERFLOW := Notice(true, false, false, "")

  function EndsWith(s: string, suffix: string): bool {
    |s| >= |suffix| && s[|s| - |suffix|..] == suffix
  }

  /** The names that events are looked at for. */
  predicate Template(file: string) {
    EndsWith(file, ".ut") || EndsWith(file, ".uc")
  }

  predicate StaleEvent(ev: Notice) {
    ev.overflow || ev.gone || (ev.name != "" && (ev.isDir || Template(ev.name)))
  }

  /** File names are looked at for their last three characters. */
  lemma TemplateIs(file: string)
    ensures Template(file) <==> |file| >= 3 && file[|file| - 3..] in {".ut", ".uc"}
  {
  }

  /** Missed events, a vanished directory, a changed subdirectory and a changed template all
      drop the cache; other files do not. */
  lemma StaleEvents(name: string)
    ensures StaleEvent(OVERFLOW) && StaleEvent(Notice(false, true, false, name))
    ensures StaleEvent(Notice(false, false, true, name)) <==> name != ""
    ensures StaleEvent(Notice(false, false, false, name)) <==> |name| >= 3 && name[|name| - 3..] in {".ut", ".uc"}
  {
  }

  /** The directory at a path below the document root. */
  function Lookup(root: Option<Id>, tree: Tree, path: seq<string>): Option<Id> {
    if path == [] then root
    else
      var n := |path| - 1;
      match Lookup(root, tree, path[..n])
      case None => None
      case Some(d) => if Entry(d, path[n]) in tree then Some(tree[Entry(d, path[n])]) else None
  }

  /** All directories on the way to `path` are known. */
  predicate Chain(root: Option<Id>, tree: Tree, known: set<Id>, path: seq<string>) {
    path == [] ||
    var n := |path| - 1;
    var d := Lookup(root, tree, path[..n]);
    Chain(root, tree, known, path[..n]) && d.Some? && d.value in known
  }

  /** Known directories have the same entries in both trees. */
  ghost predicate Agree(a: Tree, b: Tree, known: set<Id>) {
    forall e: Entry | e.dir in known :: (e in a <==> e in b) && (e in a ==> a[e] == b[e])
  }

  /** Every directory in a known one is known too, except below the `open` ones. */
  ghost predicate Closed(tree: Tree, known: set<Id>, open: set<Id>) {
    forall e | e in tree && e.dir in known && e.dir !in open :: tree[e] in known
  }

  /** Then every directory below the document root is known. */
  lemma {:induction false} AllKnown(root: Option<Id>, tree: Tree, known: set<Id>, path: seq<string>)
    requires Closed(tree, known, {}) && (root.Some? ==> root.value in known)
    ensures Lookup(root, tree, path).Some? ==> Lookup(root, tree, path).value in known
  {
    if path != [] {
      AllKnown(root, tree, known, path[..|path| - 1]);
    }
  }

  lemma {:induction false} ChainStays(root: Option<Id>, a: Tree, b: Tree, known: set<Id>, more: set<Id>,
                                      path: seq<string>)
    requires Chain(root, a, known, path) && Agree(a, b, known) && known <= more
    ensures Chain(root, b, more, path) && Lookup(root, b, path) == Lookup(root, a, path)
  {
    if path != [] {
      ChainStays(root, a, b, known, more, path[..|path| - 1]);
    }
  }

  // ----- where templates lie

  /** A file below the document root, in real directories, or anywhere else. */
  datatype Source = Inside(path: seq<string>, file: string) | Outside(target: string)

  function Dir(docroot: string): string {
    if docroot != "" && docroot[|docroot| - 1] == '/' then docroot else docroot + "/"
  }

  /** Where the file of a real path lies. */
  function PlaceOf(docroot: string, target: string): Source {
    if Dir(docroot) <= target then
      var parts := Split(target[|Dir(docroot)|..], '/');
      Inside(parts[..|parts| - 1], parts[|parts| - 1])
    else Outside(target)
  }

  lemma PlaceReads(docroot: string, target: string)
    ensures var p := PlaceOf(docroot, target);
            target == if p.Inside? then Dir(docroot) + Join(p.path + [p.file], '/') else p.target
  {
    hide Split;
    hide Join;
    if Dir(docroot) <= target {
      var rest := target[|Dir(docroot)|..];
      JoinSplit(rest, '/');
      var parts := Split(rest, '/');
      assert parts[..|parts| - 1] + [parts[|parts| - 1]] == parts;
      assert target == Dir(docroot) + rest;
    }
  }

  /** A file below the root is where its path says, whether or not the root's text ends at a
      slash; whatever does not continue the root behind a slash lies outside. */
  lemma PlaceIs(root: string, path: seq<string>, file: string)
    requires Text.Free(file, '/') && forall i | 0 <= i < |path| :: Text.Free(path[i], '/')
    requires root == "" || root[|root| - 1] != '/'
    ensures PlaceOf(root, root + "/" + Join(path + [file], '/')) == Inside(path, file)
    ensures PlaceOf(root + "/", root + "/" + Join(path + [file], '/')) == Inside(path, file)
  {
    var parts := path + [file];
    var rest := Join(parts, '/');
    assert Dir(root) == Dir(root + "/") == root + "/";
    SplitJoin(parts, '/');
    assert (root + "/" + rest)[|root + "/"|..] == rest;
    assert parts[..|parts| - 1] == path;
  }

  lemma PlaceIsOutside(root: string, target: string)
    requires root == "" || root[|root| - 1] != '/'
    ensures PlaceOf(root, target).Outside? <==> !(root <= target && |target| > |root| && target[|root|] == '/')
  {
    if root <= target && |target| > |root| && target[|root|] == '/' {
      assert target[..|root| + 1] == root + "/";
    }
  }

  /** The wrapper's test of "inside the document root". */
  predicate Serves(docroot: string, target: string) {
    docroot <= target
  }

  /** The test accepts everything below the root, and besides exactly what has the root's
      text as a prefix that does not end at a slash. */
  lemma ServesIff(docroot: string, target: string)
    ensures Serves(docroot, target)
       <==> PlaceOf(docroot, target).Inside?
            || (docroot <= target && Dir(docroot) != docroot && (target == docroot || target[|docroot|] != '/'))
  {
    if docroot <= target && Dir(docroot) != docroot && target != docroot && target[|docroot|] == '/' {
      assert target[..|docroot| + 1] == docroot + "/";
    }
  }

  /** What the watcher can tell an edit of: templates and modules below the root. */
  predicate Visible(s: Source) {
    s.Inside? && Template(s.file)
  }

  // ----- what is cached, and what happens meanwhile

  /** A file was written, or directories came, went or moved. */
  datatype Edited = File(src: Source) | Dirs

  /** A compiled template: the stat data it is kept under, how many edits had happened when
      it was read, and the files it was compiled from. */
  datatype Compiled = Compiled(mtime: int, size: int, at: nat, parts: set<Source>)

  datatype Stat = Stat(mtime: int, size: int)

  predicate Affects(e: Edited, c: Compiled) {
    if e.File? then e.src in c.parts else exists s | s in c.parts :: s.Inside?
  }

  /** None of its files has been edited since it was read. */
  predicate Current(c: Compiled, log: seq<Edited>) {
    forall i | c.at <= i < |log| :: !Affects(log[i], c)
  }

  /** One of its files out of the watcher's sight has been edited since it was read. */
  predicate Missed(c: Compiled, log: seq<Edited>) {
    exists i | c.at <= i < |log| :: log[i].File? && log[i].src in c.parts && !Visible(log[i].src)
  }

  /** From the `n`-th on, only edits out of the watcher's sight. */
  predicate Silent(log: seq<Edited>, n: nat) {
    forall i | n <= i < |log| :: log[i].File? && !Visible(log[i].src)
  }

  predicate SilentlyGrown(before: seq<Edited>, after: seq<Edited>) {
    before <= after && Silent(after, |before|)
  }

  /** If only such edits came, a template is current if and only if they missed its files;
      so one that is compiled from visible files only is current. */
  lemma CurrentIff(c: Compiled, log: seq<Edited>)
    requires Silent(log, c.at)
    ensures Current(c, log) <==> !Missed(c, log)
    ensures (forall s | s in c.parts :: Visible(s)) ==> Current(c, log)
  {
    forall i | c.at <= i < |log| ensures Affects(log[i], c) <==> log[i].src in c.parts {
      assert log[i].File?;
    }
    if !Current(c, log) {
      var i :| c.at <= i < |log| && Affects(log[i], c);
      assert log[i].File? && log[i].src in c.parts && !Visible(log[i].src);
    }
  }

  /** What others do to the files meanwhile. */
  datatype Change =
    | Edit(path: seq<string>, file: string)               // a file is written, created, deleted or renamed
    | EditOutside(target: string)                         // the same, not below the document root
    | Link(path: seq<string>, name: string, dir: Id)      // a directory is created or moved in
    | Unlink(path: seq<string>, name: string)             // a directory is deleted or moved away
    | ReplaceRoot(root: Option<Id>)                       // the document root goes, or another takes its place
    | Vanish(dir: Id)                                     // an unlinked directory is given up, with its watch
    | Other(ev: Notice)                                   // any other event

  function WrittenBy(c: Change): Source
    requires c.Edit? || c.EditOutside?
  {
    if c.Edit? then Inside(c.path, c.file) else Outside(c.target)
  }

  /** Anything may happen; or nothing happens by itself, files are there and compile with
      these imports, and the kernel refuses these watches. */
  datatype Script = Free | Quiet(refused: set<seq<string>>, imports: set<Source>)

  const MAX_DEPTH: nat := 4096
  const MAX_QUEUED_EVENTS: nat := 16384

  class Wrapper {
    /** The document root, its subdirectories, and all edits so far. */
    const docroot: string
    var root: Option<Id>
    var tree: Tree
    var edits: seq<Edited>
    const script: Script
    /** The kernel's watches and its event queue. */
    var watched: set<Id>
    var queue: seq<Notice>
    const limit: nat
    /** The wrapper's own state. */
    var tried: bool
    var watching: bool
    var cache: map<string, Compiled>
    /** Directories watched and listed since the cache was last dropped. */
    ghost var known: set<Id>
    /** When watches were last added, one to a directory that is there was refused, or the
        document root was missing. */
    ghost var blind: bool

    constructor (docroot: string, root: Option<Id>, script: Script)
      ensures Valid() && !tried && !watching && cache == map[] && queue == [] && tree == map[] && edits == []
      ensures this.docroot == docroot && this.root == root && this.script == script && limit > 0 && watched == {}
    {
      this.docroot, this.root, this.script := docroot, root, script;
      tree, edits, watched, queue, limit := map[], [], {}, [], MAX_QUEUED_EVENTS;
      tried, watching, cache, known, blind := false, false, map[], {}, false;
    }

    ghost predicate Valid()
      reads this
    {
      (|queue| > limit ==> OVERFLOW in queue) && (Excused() || known <= watched)
    }

    ghost predicate Pending()
      reads `queue
    {
      exists ev | ev in queue :: StaleEvent(ev)
    }

    /** An event that will drop the cache is queued, or the watcher has lost sight. */
    ghost predicate Excused()
      reads `queue, `blind
    {
      Pending() || blind
    }

    ghost predicate Covered()
      reads `queue, `blind, `root, `tree, `known
    {
      Excused() || (root.Some? && root.value in known && Closed(tree, known, {}))
    }

    /** Since a cached template was read there were only edits out of the watcher's sight,
        unless the cache is to be dropped. */
    ghost predicate Fresh()
      reads `queue, `blind, `cache, `edits
    {
      Excused() || forall p | p in cache :: Silent(edits, cache[p].at)
    }

    /** Cached templates were read before now, and from their own files among others. */
    ghost predicate Filed()
      reads `cache, `edits
    {
      forall p | p in cache :: cache[p].at <= |edits| && PlaceOf(docroot, p) in cache[p].parts
    }

    /** The change leaves an event that will drop the cache: a template or a module, or any
        file when the queue overflows, is written in a watched directory. */
    ghost predicate Heard(c: Change)
      reads `root, `tree, `watched, `queue
    {
      c.Edit? && var d := Lookup(root, tree, c.path);
                 d.Some? && d.value in watched && (Template(c.file) || |queue| == limit)
    }

    /** The directory of the file written is there. */
    predicate Takes(c: Change)
      reads `root, `tree
    {
      c.EditOutside? || (c.Edit? && Lookup(root, tree, c.path).Some?)
    }

    // ----- inotify

    method Enqueue(ev: Notice)
      requires Valid()
      modifies `queue
      ensures Valid() && (Pending() <==> old(Pending()) || StaleEvent(ev) || old(|queue|) == limit)
    {
      ghost var before := queue;
      assert StaleEvent(OVERFLOW) && (old(|queue|) > limit ==> OVERFLOW in before);
      if |queue| < limit {
        queue := queue + [ev];
        assert ev in queue;
      } else if |queue| == limit {
        queue := queue + [OVERFLOW];
        assert OVERFLOW in queue;
      }
      assert forall e | e in before :: e in queue;
      assert forall e | e in queue :: e in before || e == ev || e == OVERFLOW;
    }

    /** All events queued so far. */
    method Read() returns (evs: seq<Notice>)
      modifies `queue
      ensures evs == old(queue) && queue == []
    {
      evs := queue;
      queue := [];
    }

    /** Watch the directory that is at `path` now. */
    method AddWatch(path: seq<string>) returns (ok: bool)
      requires Valid()
      modifies `watched, `blind
      ensures watched >= old(watched) && (old(blind) ==> blind)
      ensures ok ==> |path| < MAX_DEPTH && blind == old(blind)
      ensures ok ==> Lookup(root, tree, path).Some? && Lookup(root, tree, path).value in watched
      ensures !ok ==> blind || (path != [] && Lookup(root, tree, path).None?)
      ensures script.Quiet? && path == [] && root.Some? ==> (ok <==> [] !in script.refused)
      ensures !ok ==> watched == old(watched)
      ensures script.Quiet? && path != [] && Lookup(root, tree, path).None? ==> blind == old(blind)
    {
      var d := Lookup(root, tree, path);
      var refused: bool := *;
      if script.Quiet? {
        refused := path in script.refused;
      }
      if d.None? || refused || |path| >= MAX_DEPTH {
        blind := blind || d.Some? || path == [];
        return false;
      }
      watched := watched + {d.value};
      return true;
    }

    /** Names of the subdirectories at `path`. */
    method List(path: seq<string>) returns (names: seq<string>)
      ensures var d := Lookup(root, tree, path);
              d.Some? ==> forall e | e in tree && e.dir == d.value :: e.name in names
    {
      var d := Lookup(root, tree, path);
      if d.None? {
        return [];
      }
      names := [];
      var left := set e | e in tree && e.dir == d.value :: e.name;
      while left != {}
        invariant forall e | e in tree && e.dir == d.value :: e.name in left || e.name in names
        decreases |left|
      {
        var name :| name in left;
        left := left - {name};
        names := names + [name];
      }
    }

    // ----- others

    method Apply(c: Change)
      requires Valid()
      modifies `root, `tree, `queue, `edits, `watched
      ensures Valid() && old(edits) <= edits && (old(Excused()) ==> Excused())
      ensures Excused() || root == old(root) || old(root).None? || old(root).value !in known
      ensures Excused() || Agree(old(tree), tree, known)
      ensures old(Covered()) ==> Excused() || SilentlyGrown(old(edits), edits)
      ensures old(Takes(c)) ==> root == old(root) && tree == old(tree)
                                && edits == old(edits) + [File(WrittenBy(c))]
                                && (Pending() <==> old(Pending()) || old(Heard(c)))
      ensures watched == if c.Vanish? then old(watched) - {c.dir} else old(watched)
    {
      hide StaleEvent;
      match c {
        case Edit(path, file) =>
          var d := Lookup(root, tree, path);
          if d.Some? {
            ghost var sure := Sighted(path);
            edits := edits + [File(Inside(path, file))];
            if d.value in watched {
              StaleEvents(file);
              Enqueue(Notice(false, false, false, file));
            }
          }
        case EditOutside(target) =>
          edits := edits + [File(Outside(target))];
        case Link(path, name, dir) =>
          ChangeEntry(path, name, Some(dir));
        case Unlink(path, name) =>
          ChangeEntry(path, name, None);
        case ReplaceRoot(r) =>
          var gone := root;
          root := r;
          edits := edits + [Dirs];
          if gone.Some? && gone.value in watched {
            StaleEvents("");
            Enqueue(Notice(false, true, false, ""));
          }
        case Vanish(dir) =>
          if dir in watched {
            StaleEvents("");
            Enqueue(Notice(false, true, false, ""));
            watched := watched - {dir};
          }
        case Other(ev) =>
          Enqueue(ev);
      }
    }

    ghost method Sighted(path: seq<string>) returns (sure: bool)
      ensures sure == (Covered() && !Excused())
      ensures sure && Lookup(root, tree, path).Some? ==> Lookup(root, tree, path).value in known
    {
      sure := Covered() && !Excused();
      if sure {
        AllKnown(root, tree, known, path);
      }
    }

    method ChangeEntry(path: seq<string>, name: string, dir: Option<Id>)
      requires Valid()
      modifies `tree, `queue, `edits
      ensures Valid() && old(edits) <= edits && (old(Excused()) ==> Excused())
      ensures Excused() || Agree(old(tree), tree, known)
      ensures old(Covered()) ==> Excused() || SilentlyGrown(old(edits), edits)
    {
      hide StaleEvent;
      var d := Lookup(root, tree, path);
      if d.Some? && name != "" {
        ghost var sure := Sighted(path);
        edits := edits + [Dirs];
        tree := if dir.Some? then tree[Entry(d.value, name) := dir.value] else tree - {Entry(d.value, name)};
        if d.value in watched {
          StaleEvents(name);
          Enqueue(Notice(false, false, true, name));
        }
      }
    }

    /** Any number of changes by others, between two steps of the wrapper. */
    method Interfere()
      requires Valid()
      modifies `root, `tree, `queue, `edits, `watched
      ensures Valid() && old(edits) <= edits && (old(Excused()) ==> Excused())
      ensures Excused() || root == old(root) || old(root).None? || old(root).value !in known
      ensures Excused() || Agree(old(tree), tree, known)
      ensures old(Covered()) ==> Excused() || SilentlyGrown(old(edits), edits)
      ensures old(Covered()) ==> Covered()
      ensures script.Quiet? ==> Still(old(root), old(tree), old(edits), old(queue)) && watched == old(watched)
    {
      hide Closed;
      if script.Quiet? {
        return;
      }
      var n: int := *;
      for i := 0 to if n < 0 then 0 else n
        invariant Valid() && old(edits) <= edits && (old(Excused()) ==> Excused())
        invariant Excused() || root == old(root) || old(root).None? || old(root).value !in known
        invariant Excused() || Agree(old(tree), tree, known)
        invariant old(Covered()) ==> Excused() || SilentlyGrown(old(edits), edits)
        invariant old(Covered()) ==> Covered()
      {
        var c: Change := *;
        ghost var before := tree;
        Apply(c);
        if !Excused() {
          ClosedStays(before, tree, known, {});
        }
      }
    }

    predicate Still(r: Option<Id>, t: Tree, log: seq<Edited>, q: seq<Notice>)
      reads `root, `tree, `edits, `queue
    {
      root == r && tree == t && edits == log && queue == q
    }

    // ----- the wrapper

    /** An event is queued, or what was known has not changed since. */
    ghost predicate Steady(r: Option<Id>, t: Tree, k: set<Id>)
      reads `queue, `blind, `root, `tree
    {
      Excused() || (root == r && Agree(t, tree, k))
    }

    /** The directory at `path` is `d`, known but for what is below it. */
    ghost predicate At(path: seq<string>, d: Id, open: set<Id>)
      reads `queue, `blind, `root, `tree, `known
    {
      Excused() || (Chain(root, tree, known, path) && Lookup(root, tree, path) == Some(d) && d in known
                    && Closed(tree, known, open))
    }

    /** Watch the directory at `path` and all below it: each is watched before it is listed,
        so a subdirectory is either listed or announced. */
    method WatchDirs(path: seq<string>, ghost open: set<Id>)
      requires Valid() && |path| <= MAX_DEPTH
      requires Excused() || (Chain(root, tree, known, path) && Closed(tree, known, open))
      modifies `root, `tree, `queue, `edits, `watched, `known, `blind
      ensures Valid() && old(edits) <= edits && (old(Excused()) ==> Excused()) && known >= old(known)
      ensures path != [] ==> Steady(old(root), old(tree), old(known))
      ensures Excused() || Agree(old(tree), tree, old(known))
      ensures Excused() || Closed(tree, known, open)
      ensures Excused() || (Lookup(root, tree, path).Some? && Lookup(root, tree, path).value in known)
                        || (Lookup(root, tree, path).None? && path != [])
      ensures script.Quiet? ==> Still(old(root), old(tree), old(edits), old(queue))
      ensures script.Quiet? && tree == map[] && path == [] && root.Some?
          ==> blind == (old(blind) || [] in script.refused) && ([] in script.refused ==> watched == old(watched))
      decreases MAX_DEPTH - |path|, 1
    {
      hide Lookup;
      hide Chain;
      hide Closed;
      hide Agree;
      hide Pending;
      ChainRoot(root, tree, known, path);
      Interfere();
      if !Excused() {
        if path != [] {
          ChainStays(root, old(tree), tree, known, known, path);
        } else {
          ChainOfRoot(root, tree, known);
        }
        ClosedStays(old(tree), tree, known, open);
      }
      var ok := AddWatch(path);
      if !ok {
        return;
      }
      ghost var d := Lookup(root, tree, path).value;
      ghost var t, k := tree, known;
      known := known + {d};
      if !Excused() {
        AgreeSelf(t, k);
        ChainStays(root, t, t, k, known, path);
        ClosedGrows(t, k, open, d);
      }
      WatchBelow(path, d, open);
      if !Excused() {
        AgreeTwice(old(tree), t, tree, old(known), k + {d});
      }
    }

    method WatchBelow(path: seq<string>, ghost d: Id, ghost open: set<Id>)
      requires Valid() && |path| < MAX_DEPTH && At(path, d, open + {d})
      modifies `root, `tree, `queue, `edits, `watched, `known, `blind
      ensures Valid() && old(edits) <= edits && (old(Excused()) ==> Excused()) && known >= old(known)
      ensures Steady(old(root), old(tree), old(known)) && At(path, d, open)
      ensures script.Quiet? ==> Still(old(root), old(tree), old(edits), old(queue))
      ensures script.Quiet? && tree == map[] ==> blind == old(blind)
      decreases MAX_DEPTH - |path|, 0
    {
      hide Lookup;
      hide Chain;
      hide Closed;
      hide Agree;
      hide Pending;
      Wait(path, d, open + {d});
      var names := List(path);
      ghost var r, t, k, excused := root, tree, known, Excused();
      AgreeSelf(t, k);
      for i := 0 to |names|
        invariant Valid() && old(edits) <= edits && (excused ==> Excused()) && known >= k
        invariant Steady(r, t, k) && At(path, d, open + {d})
        invariant Excused() || forall n | n in names[..i] :: Done(tree, known, d, n)
        invariant script.Quiet? ==> Still(old(root), old(tree), old(edits), old(queue))
        invariant script.Quiet? && tree == map[] ==> blind == old(blind)
      {
        assert names[..i + 1] == names[..i] + [names[i]];
        ghost var t', k' := tree, known;
        WatchEntry(path, names[i], d, open, names[..i]);
        if !Excused() {
          AgreeTwice(t, t', tree, k, k');
        }
      }
      if !Excused() {
        assert names[..|names|] == names;
        AllDone(t, tree, known, k, d, open, names);
        AgreeTwice(old(tree), t, tree, old(known), k);
      }
    }

    method WatchEntry(path: seq<string>, name: string, ghost d: Id, ghost open: set<Id>, ghost done: seq<string>)
      requires Valid() && |path| < MAX_DEPTH && At(path, d, open + {d})
      requires Excused() || forall n | n in done :: Done(tree, known, d, n)
      modifies `root, `tree, `queue, `edits, `watched, `known, `blind
      ensures Valid() && old(edits) <= edits && (old(Excused()) ==> Excused()) && known >= old(known)
      ensures Steady(old(root), old(tree), old(known)) && At(path, d, open + {d})
      ensures Excused() || forall n | n in done + [name] :: Done(tree, known, d, n)
      ensures script.Quiet? ==> Still(old(root), old(tree), old(edits), old(queue))
      ensures script.Quiet? && tree == map[] ==> blind == old(blind)
      decreases MAX_DEPTH - |path|, 0, 0
    {
      hide Lookup;
      hide Chain;
      hide Closed;
      hide Agree;
      hide Pending;
      Wait(path, d, open + {d});
      ghost var r, t, k := root, tree, known;
      if !Excused() {
        DoneStays(old(tree), t, k, k, d, done);
        SubPath(root, tree, known, path, d, name);
      }
      var sub := path + [name];
      EmptyTree(root, tree, sub);
      if Lookup(root, tree, sub).None? {
        return;
      }
      Wait(path, d, open + {d});
      ghost var t', k' := tree, known;
      if !Excused() {
        SubPath(root, tree, known, path, d, name);
        AgreeTwice(old(tree), t, tree, old(known), k);
      }
      WatchDirs(sub, open + {d});
      if !Excused() {
        ChainStays(root, t', tree, k', known, path);
        SubPath(root, tree, known, path, d, name);
        AgreeTwice(old(tree), t', tree, old(known), k');
        DoneStays(old(tree), tree, old(known), known, d, done);
      }
    }

    /** Let others act; what is known stays as it is, or an event is queued. */
    method Wait(path: seq<string>, ghost d: Id, ghost open: set<Id>)
      requires Valid() && At(path, d, open)
      modifies `root, `tree, `queue, `edits, `watched
      ensures Valid() && old(edits) <= edits && (old(Excused()) ==> Excused())
      ensures Steady(old(root), old(tree), known) && At(path, d, open)
      ensures script.Quiet? ==> Still(old(root), old(tree), old(edits), old(queue))
    {
      hide Closed;
      hide Agree;
      hide Pending;
      ChainRoot(root, tree, known, path);
      Interfere();
      if !Excused() {
        ChainStays(root, old(tree), tree, known, known, path);
        ClosedStays(old(tree), tree, known, open);
      }
    }

    /** On the first request: start watching, if the plugin is there. */
    method EnsureWatcher()
      requires Valid() && (!tried ==> cache == map[] && !watching) && (watching ==> Covered() && Fresh())
      modifies this
      ensures Valid() && tried && old(edits) <= edits && cache == old(cache)
      ensures watching ==> Covered() && Fresh()
      ensures old(tried) ==> unchanged(this)
      ensures script.Quiet? ==> Still(old(root), old(tree), old(edits), old(queue))
      ensures script.Quiet? && !old(tried) && tree == map[] && root.Some?
          ==> watching && blind == ([] in script.refused) && ([] in script.refused ==> watched == old(watched))
    {
      hide Chain;
      hide Closed;
      hide Agree;
      hide Pending;
      if tried {
        return;
      }
      tried := true;
      var available: bool := *;
      if !available && script.Free? {
        return;
      }
      known, blind := {}, false;
      NothingKnown(root, tree);
      WatchDirs([], {});
      watching := true;
    }

    /** Drop the cache if any queued event may concern a template. */
    method PollWatcher()
      requires Valid() && Covered() && Fresh()
      modifies `root, `tree, `queue, `edits, `watched, `known, `blind, `cache
      ensures Valid() && Covered() && Fresh() && old(edits) <= edits
      ensures cache == if old(Pending()) then map[] else old(cache)
      ensures !old(Pending()) ==> Still(old(root), old(tree), old(edits), []) && watched == old(watched)
                                  && blind == old(blind)
      ensures blind || forall p | p in cache :: Silent(old(edits), cache[p].at)
      ensures script.Quiet? ==> Still(old(root), old(tree), old(edits), [])
    {
      hide Chain;
      hide Closed;
      hide Agree;
      hide StaleEvent;
      var evs := Read();
      var dirty := false;
      for i := 0 to |evs|
        invariant !dirty && forall j | 0 <= j < i :: !StaleEvent(evs[j])
      {
        if StaleEvent(evs[i]) {
          assert evs[i] in evs;
          dirty := true;
          break;
        }
      }
      if !dirty {
        return;
      }
      cache := map[];
      known, blind := {}, false;
      NothingKnown(root, tree);
      hide Pending;
      WatchDirs([], {});
    }

    /** The compiled template for a path. */
    method GetTemplate(path: string) returns (r: Option<Compiled>, ghost seen: Option<Stat>)
      requires Valid() && Filed() && (watching ==> Covered() && Fresh())
      modifies `root, `tree, `queue, `edits, `watched, `cache
      ensures Valid() && Filed() && old(edits) <= edits && (watching ==> Covered() && Fresh())
      ensures cache == if r.Some? then old(cache)[path := r.value] else old(cache)
      ensures r.Some? ==> r.value.at >= |old(edits)| || (path in old(cache) && r.value == old(cache)[path]
                            && (watching || seen == Some(Stat(r.value.mtime, r.value.size))))
      ensures watching && path in old(cache)
          ==> r == Some(old(cache)[path]) && Still(old(root), old(tree), old(edits), old(queue))
      ensures script.Quiet? ==> r.Some? && watched == old(watched)
      ensures script.Quiet? ==> Still(old(root), old(tree), old(edits), old(queue))
      ensures script.Quiet? && path !in old(cache)
          ==> r.value.at == |edits| && r.value.parts == {PlaceOf(docroot, path)} + script.imports
    {
      hide Closed;
      hide Agree;
      hide Pending;
      hide PlaceOf;
      seen := None;
      assert path in cache ==> cache == cache[path := cache[path]];
      if path in cache && watching {
        return Some(cache[path]), None;
      }
      Interfere();
      var st: Option<Stat> := *;
      if script.Quiet? {
        st := Some(Stat(0, 0));
      }
      seen := st;
      if st == None {
        return None, seen;
      }
      if path in cache && cache[path].mtime == st.value.mtime && cache[path].size == st.value.size {
        return Some(cache[path]), seen;
      }
      Interfere();
      var imports: set<Source> := *;
      var fails: bool := *;
      if script.Quiet? {
        imports, fails := script.imports, false;
      }
      var compiled := Compiled(st.value.mtime, st.value.size, |edits|, {PlaceOf(docroot, path)} + imports);
      Interfere();
      if fails {
        return None, seen;
      }
      cache := cache[path := compiled];
      return Some(compiled), seen;
    }

    /** One request.  With the watcher a template misses only edits out of the watcher's
        sight, unless a watch was refused or the root was missing when watches were last
        added; so it is current with all edits before the request if and only if none of
        them was to a file of its own that lies out of sight.  Without the watcher it was
        read during the request or its file still has the same time and size. */
    method Request(path: string) returns (r: Option<Compiled>, ghost seen: Option<Stat>)
      requires Valid() && Filed() && (!tried ==> cache == map[] && !watching) && (watching ==> Covered() && Fresh())
      modifies this
      ensures Valid() && Filed() && tried && (watching ==> Covered() && Fresh()) && old(edits) <= edits
      ensures r.Some? ==> PlaceOf(docroot, path) in r.value.parts && path in cache && cache[path] == r.value
      ensures r.Some? && watching && !blind ==> Silent(old(edits), r.value.at)
      ensures r.Some? && watching && !blind ==> (Current(r.value, old(edits)) <==> !Missed(r.value, old(edits)))
      ensures r.Some? && watching && !blind && (forall s | s in r.value.parts :: Visible(s))
          ==> Current(r.value, old(edits))
      ensures r.Some? && !watching
          ==> r.value.at >= |old(edits)| || seen == Some(Stat(r.value.mtime, r.value.size))
      ensures old(tried && watching && Pending()) && r.Some? ==> r.value.at >= |old(edits)|
      ensures old(tried && watching && !Pending() && path in cache) ==> r == Some(old(cache)[path])
      ensures script.Quiet? ==> r.Some? && Still(old(root), old(tree), old(edits), if watching then [] else old(queue))
      ensures script.Quiet? && !old(tried) && old(tree) == map[] && root.Some? && old(queue) == []
          ==> watching && blind == ([] in script.refused) && ([] in script.refused ==> watched == old(watched))
              && r.value.at == |edits| && r.value.parts == {PlaceOf(docroot, path)} + script.imports
    {
      hide Covered;
      hide Fresh;
      hide PlaceOf;
      EnsureWatcher();
      if watching {
        PollWatcher();
      }
      r, seen := GetTemplate(path);
    }
  }

  /** A file is written and then a template is requested that was cached before: it is
      served as it was if and only if no event was pending and the edit left none. */
  method EditThenRequest(w: Wrapper, path: string, c: Change) returns (r: Option<Compiled>)
    requires w.Valid() && w.Filed() && w.tried && w.watching && w.Covered() && w.Fresh()
    requires path in w.cache && w.Takes(c)
    modifies w
    ensures r == Some(old(w.cache)[path]) <==> !old(w.Pending() || w.Heard(c))
    ensures r.Some? && WrittenBy(c) in r.value.parts && r == Some(old(w.cache)[path])
        ==> !Current(r.value, old(w.edits) + [File(WrittenBy(c))])
    ensures w.script.Quiet? ==> r.Some? && w.edits == old(w.edits) + [File(WrittenBy(c))]
  {
    hide PlaceOf;
    hide Lookup;
    ghost var log := w.edits + [File(WrittenBy(c))];
    w.Apply(c);
    assert log[w.cache[path].at..] != [] && log[|log| - 1] == File(WrittenBy(c));
    ghost var seen;
    r, seen := w.Request(path);
  }

  /** From the start: a template below a document root without subdirectories is requested, a
      file is written, and it is requested again.  Apart from that nothing happens. */
  method WriteBetween(docroot: string, path: string, script: Script, c: Change)
      returns (first: Compiled, second: Compiled, log: seq<Edited>)
    requires script.Quiet? && (c.EditOutside? || (c.Edit? && c.path == []))
    ensures first.parts == {PlaceOf(docroot, path)} + script.imports && log == [File(WrittenBy(c))]
    ensures second == first
       <==> !(c.Edit? && |c.file| >= 3 && c.file[|c.file| - 3..] in {".ut", ".uc"} && [] !in script.refused)
    ensures Current(first, log) <==> WrittenBy(c) !in first.parts
  {
    hide PlaceOf;
    var w := new Wrapper(docroot, Some(0), script);
    ghost var seen;
    var r: Option<Compiled>;
    r, seen := w.Request(path);
    first := r.value;
    ghost var at := w.edits;
    assert !w.Pending();
    assert w.Takes(c) && Lookup(w.root, w.tree, []) == Some(0);
    assert w.Heard(c) <==> c.Edit? && 0 in w.watched && Template(c.file);
    assert c.Edit? ==> (Template(c.file) <==> |c.file| >= 3 && c.file[|c.file| - 3..] in {".ut", ".uc"});
    r := EditThenRequest(w, path, c);
    second := r.value;
    log := w.edits;
    assert Affects(log[0], first) <==> WrittenBy(c) in first.parts;
  }

  /** A module imported from outside the document root is edited. */
  method ImportedEditIsMissed() returns (first: Compiled, second: Compiled, log: seq<Edited>)
    ensures second == first && !Current(first, log)
    ensures log == [File(Outside("/usr/share/ucode/lib.uc"))] && Inside([], "x.ut") in first.parts
  {
    var lib := "/usr/share/ucode/lib.uc";
    first, second, log := WriteBetween("/www", "/www/x.ut", Quiet({}, {Outside(lib)}), EditOutside(lib));
    assert "/www/x.ut"[5..] == "x.ut";
    SplitFree("x.ut", '/');
  }

  /** The document root is /www and the template lies in /www2. */
  method SiblingEditIsMissed() returns (first: Compiled, second: Compiled, log: seq<Edited>)
    ensures Serves("/www", "/www2/x.ut")
    ensures second == first && !Current(first, log) && log == [File(Outside("/www2/x.ut"))]
  {
    var path := "/www2/x.ut";
    first, second, log := WriteBetween("/www", path, Quiet({}, {}), EditOutside(path));
    assert path[..4] == "/www" && path[4] == '2';
    ServesIff("/www", path);
  }

  /** The kernel refuses to watch the document root. */
  method UnwatchedEditIsMissed() returns (first: Compiled, second: Compiled, log: seq<Edited>)
    ensures second == first && !Current(first, log) && log == [File(Inside([], "x.ut"))]
  {
    first, second, log := WriteBetween("/www", "/www/x.ut", Quiet({[]}, {}), Edit([], "x.ut"));
    assert "/www/x.ut"[5..] == "x.ut";
    SplitFree("x.ut", '/');
  }

  lemma NothingKnown(root: Option<Id>, tree: Tree)
    ensures Chain(root, tree, {}, []) && Closed(tree, {}, {})
  {
  }

  /** The entry `n` of directory `d`, if it is a directory, is known. */
  predicate Done(tree: Tree, known: set<Id>, d: Id, n: string) {
    Entry(d, n) in tree ==> tree[Entry(d, n)] in known
  }

  lemma ChainRoot(root: Option<Id>, tree: Tree, known: set<Id>, path: seq<string>)
    ensures path != [] && Chain(root, tree, known, path) ==> root.Some? && root.value in known
    ensures path == [] ==> Lookup(root, tree, path) == root
  {
    if path != [] {
      ChainRoot(root, tree, known, path[..|path| - 1]);
    }
  }

  lemma SubPath(root: Option<Id>, tree: Tree, known: set<Id>, path: seq<string>, d: Id, n: string)
    requires Lookup(root, tree, path) == Some(d) && Chain(root, tree, known, path) && d in known
    ensures Chain(root, tree, known, path + [n])
    ensures Lookup(root, tree, path + [n]) == if Entry(d, n) in tree then Some(tree[Entry(d, n)]) else None
  {
    assert (path + [n])[..|path|] == path;
  }

  lemma EmptyTree(root: Option<Id>, tree: Tree, path: seq<string>)
    ensures tree == map[] && path != [] ==> Lookup(root, tree, path).None?
  {
  }

  lemma ChainOfRoot(root: Option<Id>, tree: Tree, known: set<Id>)
    ensures Chain(root, tree, known, [])
  {
  }

  lemma ClosedGrows(tree: Tree, known: set<Id>, open: set<Id>, d: Id)
    requires Closed(tree, known, open)
    ensures Closed(tree, known + {d}, open + {d})
  {
  }

  lemma AgreeSelf(t: Tree, k: set<Id>)
    ensures Agree(t, t, k)
  {
  }

  lemma AgreeTwice(a: Tree, b: Tree, c: Tree, k: set<Id>, more: set<Id>)
    requires Agree(a, b, k) && Agree(b, c, more) && k <= more
    ensures Agree(a, c, k)
  {
  }

  lemma DoneStays(a: Tree, b: Tree, k: set<Id>, more: set<Id>, d: Id, names: seq<string>)
    requires Agree(a, b, k) && d in k && k <= more && forall n | n in names :: Done(a, k, d, n)
    ensures forall n | n in names :: Done(b, more, d, n)
  {
  }

  /** All entries listed are known and none has come since: the directory is closed. */
  lemma AllDone(t: Tree, tree: Tree, known: set<Id>, k: set<Id>, d: Id, open: set<Id>, names: seq<string>)
    requires Agree(t, tree, k) && d in k && Closed(tree, known, open + {d})
    requires forall e | e in t && e.dir == d :: e.name in names
    requires forall n | n in names :: Done(tree, known, d, n)
    ensures Closed(tree, known, open)
  {
    forall e | e in tree && e.dir in known && e.dir !in open ensures tree[e] in known {
      if e.dir == d {
        assert e == Entry(d, e.name) && e in t;
        assert Done(tree, known, d, e.name);
      }
    }
  }

  lemma ClosedStays(a: Tree, b: Tree, known: set<Id>, open: set<Id>)
    requires Agree(a, b, known)
    ensures Closed(a, known, open) <==> Closed(b, known, open)
  {
  }
}
