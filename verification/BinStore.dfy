/** The on-disk store of downloaded binaries: which versions are installed and
    which one is active. */
module BinStore {
  import opened Options
  import opened Strings

  /** `root` is the store's directory, `active` the tag in the active marker, ""
      when there is none; `installed` names the directories below the root that
      contain a binary. */
  datatype State = State(root: seq<string>, active: string, installed: set<string>)

  /** What the release proxy and the download make of a requested tag.
      `Unrecorded`: the binary is in place, but the call fails all the same. */
  datatype Fetch = Missing | Got(tag: string) | Corrupt(tag: string) | Unrecorded(tag: string)

  datatype Op = Installed(tag: string) | ExtractFailed(tag: string) | Activated(tag: string) | Deleted(tag: string)

  predicate IsAlnum(c: char) {
    '0' <= c <= '9' || 'A' <= c <= 'Z' || 'a' <= c <= 'z'
  }

  /** A single safe path segment of at most 64 characters. */
  predicate ValidTag(v: string) {
    && 0 < |v| <= 64
    && IsAlnum(v[0])
    && forall i :: 0 <= i < |v| ==> IsAlnum(v[i]) || v[i] in {'.', '_', '-'}
  }

  /** A tag has one to sixty-four characters. */
  lemma TagLength(c: char, n: nat)
    requires c in {'0', '9', 'A', 'Z', 'a', 'z'}
    ensures ValidTag(seq(n, _ => c)) <==> 1 <= n < 65
  {
    if n > 0 {
      assert seq(n, _ => c)[0] == c;
    }
  }

  /** Letters, digits, dots, underscores and dashes can stand anywhere in a tag, but
      the last three not in front; what stands next to letters and digits in the
      code cannot, and neither can anything that means something in a path. */
  lemma TagCharacters(v: string, i: nat, c: char)
    requires ValidTag(v) && i < |v|
    ensures c in {'0', '9', 'A', 'Z', 'a', 'z'} ==> ValidTag(v[i := c])
    ensures c in {'.', '_', '-'} ==> (ValidTag(v[i := c]) <==> i > 0)
    ensures c in {'/', ':', '@', '[', '`', '{', '\\', ' ', '%', '~'} ==> !ValidTag(v[i := c])
  {
    var w := v[i := c];
    assert w[i] == c;
  }

  /** The installed version a configured tag stands for, if it can run. */
  function Resolve(s: State, version: string): Option<string> {
    var v := Trim(version);
    var v := if v == "" || v == "current" then s.active else v;
    if ValidTag(v) && v in s.installed then Some(v) else None
  }

  // ---- Where a tag points ------------------------------------------------

  /** The file below the root that holds the active marker. */
  const MARKER := "active.json"

  /** The file in a version's directory that makes it installed. */
  const BINARY := "cloudflared"

  function Segments(path: string): (r: seq<string>)
    ensures forall s :: s in r ==> '/' !in s
    decreases |path|
  {
    var head := Before(path, {'/'});
    assert '/' !in head;
    if |head| == |path| then [head] else [head] + Segments(path[|head| + 1..])
  }

  /** Following the segments from a directory, as joining and cleaning paths does. */
  function Walk(dir: seq<string>, segments: seq<string>): seq<string>
    decreases |segments|
  {
    if segments == [] then dir
    else
      var s := segments[0];
      var next := if s == "" || s == "." then dir
                  else if s == ".." then (if dir == [] then [] else dir[..|dir| - 1])
                  else dir + [s];
      Walk(next, segments[1..])
  }

  /** `Covering` is the root or a directory above it; `Entry` is right below the
      root, `Binary` the binary of such an entry. */
  datatype Place = Covering | Entry(name: string) | Binary(name: string) | Elsewhere

  function PlaceOf(root: seq<string>, tag: string): Place {
    var path := Walk(root, Segments(tag));
    if path <= root then Covering
    else if root <= path && |path| == |root| + 1 then Entry(path[|root|])
    else if root <= path && |path| == |root| + 2 && path[|root| + 1] == BINARY then Binary(path[|root|])
    else Elsewhere
  }

  lemma PlaceIsEntry(root: seq<string>, tag: string, v: string)
    ensures PlaceOf(root, tag) == Entry(v) <==> Walk(root, Segments(tag)) == root + [v]
  {
    var path := Walk(root, Segments(tag));
    if path == root + [v] {
      assert !(path <= root) && root <= path;
    }
  }

  /** A name that a directory entry can have. */
  predicate IsName(name: string) {
    '/' !in name && name !in {"", ".", ".."}
  }

  lemma NameIsEntry(root: seq<string>, name: string)
    requires IsName(name)
    ensures PlaceOf(root, name) == Entry(name)
  {
    assert forall i :: 0 <= i < |name| ==> name[i] in name;
    BeforeUnique(name, name, {'/'});
    assert Segments(name) == [name];
    assert Walk(root, [name]) == Walk(root + [name], []) == root + [name];
  }

  lemma ValidIsName(v: string)
    requires ValidTag(v)
    ensures IsName(v)
  {
  }

  /** The store after whatever the tag points to has been removed. */
  function Removed(s: State, tag: string): State {
    match PlaceOf(s.root, tag)
    case Covering => s.(active := "", installed := {})
    case Entry(name) => if name == MARKER then s.(active := "") else s.(installed := s.installed - {name})
    case Binary(name) => s.(installed := s.installed - {name})
    case Elsewhere => s
  }

  /** The place tells apart what can be under a path: the marker goes exactly if the
      path leads to it or to a directory above it, and a version exactly if the
      path leads to its binary or to a directory above that. */
  lemma RemovedIff(s: State, tag: string, v: string)
    requires v in s.installed ==> v != MARKER
    ensures var path := Walk(s.root, Segments(tag));
      && Removed(s, tag).active == (if path <= s.root + [MARKER] then "" else s.active)
      && (v in Removed(s, tag).installed <==> v in s.installed && !(path <= s.root + [v, BINARY]))
  {
    var path := Walk(s.root, Segments(tag));
    PrefixOfEntry(path, s.root, MARKER);
    PrefixOfBinary(path, s.root, v);
  }

  lemma PrefixOfEntry(path: seq<string>, root: seq<string>, name: string)
    ensures path <= root + [name] <==> path <= root || path == root + [name]
  {
    var whole := root + [name];
    if path <= whole && |path| <= |root| {
      assert path == whole[..|path|] == root[..|path|];
    }
    if path <= root {
      assert whole[..|path|] == root[..|path|];
    }
  }

  lemma PrefixOfBinary(path: seq<string>, root: seq<string>, v: string)
    ensures path <= root + [v, BINARY] <==> path <= root || path == root + [v] || path == root + [v, BINARY]
  {
    assert root + [v, BINARY] == (root + [v]) + [BINARY];
    PrefixOfEntry(path, root + [v], BINARY);
    PrefixOfEntry(path, root, v);
  }

  /** Following a path one segment at a time: an empty segment and a dot stay, two
      dots go up, anything else goes down. */
  lemma WalkStep(dir: seq<string>, segment: string, rest: seq<string>)
    ensures segment in {"", "."} ==> Walk(dir, [segment] + rest) == Walk(dir, rest)
    ensures segment == ".." && dir != [] ==> Walk(dir, [segment] + rest) == Walk(dir[..|dir| - 1], rest)
    ensures segment == ".." && dir == [] ==> Walk(dir, [segment] + rest) == Walk([], rest)
    ensures segment !in {"", ".", ".."} ==> Walk(dir, [segment] + rest) == Walk(dir + [segment], rest)
    ensures Walk(dir, []) == dir
  {
    assert ([segment] + rest)[1..] == rest;
  }

  /** An installation makes the tag's directory, which fails where a file stands. */
  function Apply(s: State, op: Op): State {
    match op
    case Installed(tag) =>
      var place := PlaceOf(s.root, tag);
      if place.Entry? && place.name != MARKER then s.(installed := s.installed + {place.name}) else s
    case ExtractFailed(tag) =>
      var place := PlaceOf(s.root, tag);
      if place.Covering? || (place.Entry? && place.name != MARKER) then Removed(s, tag) else s
    case Activated(tag) => if Resolve(s, tag).Some? then s.(active := tag) else s
    case Deleted(tag) => if tag == s.active then s else Removed(s, tag)
  }

  /** Installed directories have names of directory entries, and the marker is a file. */
  ghost predicate WellNamed(s: State) {
    forall v :: v in s.installed ==> IsName(v) && v != MARKER
  }

  lemma {:induction false} WalkNames(dir: seq<string>, segments: seq<string>)
    requires forall s :: s in dir + segments ==> '/' !in s
    requires forall s :: s in dir ==> s !in {"", ".", ".."}
    ensures forall s :: s in Walk(dir, segments) ==> IsName(s)
    decreases |segments|
  {
    if segments != [] {
      var s := segments[0];
      assert s in dir + segments;
      var next := if s == "" || s == "." then dir
                  else if s == ".." then (if dir == [] then [] else dir[..|dir| - 1])
                  else dir + [s];
      assert forall x :: x in next ==> x in dir || (x == s && x !in {"", ".", ".."});
      forall x | x in next + segments[1..]
        ensures '/' !in x && (x in next ==> x !in {"", ".", ".."})
      {
        assert x in dir + segments;
      }
      WalkNames(next, segments[1..]);
    }
  }

  /** No operation gives a directory a name it cannot have. */
  lemma ApplyKeepsNames(s: State, op: Op)
    requires WellNamed(s) && forall d :: d in s.root ==> IsName(d)
    ensures WellNamed(Apply(s, op)) && Apply(s, op).root == s.root
  {
    match op
    case Installed(tag) =>
      var segments := Segments(tag);
      WalkNames(s.root, segments);
      var path := Walk(s.root, segments);
      assert forall i :: 0 <= i < |path| ==> path[i] in path;
    case _ =>
  }

  class Store {
    const root: seq<string>
    var active: string
    var installed: set<string>

    /** Versions whose directory the operating system refuses to remove, and
        which other paths it finds and removes. */
    const undeletable: set<string>
    const found: string -> bool
    const fetch: string -> Fetch

    ghost predicate Valid()
      reads this
    {
      WellNamed(View()) && forall d :: d in root ==> IsName(d)
    }

    constructor (s: State, undeletable: set<string>, found: string -> bool, fetch: string -> Fetch)
      requires WellNamed(s) && forall d :: d in s.root ==> IsName(d)
      ensures Valid() && View() == s
      ensures this.undeletable == undeletable && this.found == found && this.fetch == fetch
    {
      root, active, installed := s.root, s.active, s.installed;
      this.undeletable, this.found, this.fetch := undeletable, found, fetch;
    }

    ghost function View(): State
      reads this
    {
      State(root, active, installed)
    }

    /** Removes whatever the tag points to. */
    method RemoveAll(tag: string)
      modifies this
      ensures View() == Removed(old(View()), tag)
    {
      match PlaceOf(root, tag) {
        case Covering => active, installed := "", {};
        case Entry(name) =>
          if name == MARKER {
            active := "";
          } else {
            installed := installed - {name};
          }
        case Binary(name) => installed := installed - {name};
        case Elsewhere =>
      }
    }

    method Install(version: string) returns (tag: Option<string>)
      requires Valid()
      modifies this
      ensures Valid()
      ensures match fetch(version)
              case Missing => tag == None && View() == old(View())
              case Got(t) => tag == Some(t) && View() == Apply(old(View()), Installed(t))
              case Corrupt(t) => tag == None && View() == Apply(old(View()), ExtractFailed(t))
              case Unrecorded(t) => tag == None && View() == Apply(old(View()), Installed(t))
    {
      tag := None;
      match fetch(version) {
        case Missing =>
        case Got(t) =>
          ApplyKeepsNames(View(), Installed(t));
          Place(t);
          tag := Some(t);
        case Corrupt(t) =>
          ApplyKeepsNames(View(), ExtractFailed(t));
          var place := PlaceOf(root, t);
          if place.Covering? || (place.Entry? && place.name != MARKER) {
            RemoveAll(t);
          }
        case Unrecorded(t) =>
          ApplyKeepsNames(View(), Installed(t));
          Place(t);
      }
    }

    /** Puts a binary where the tag points to. */
    method Place(tag: string)
      modifies this`installed
      ensures View() == Apply(old(View()), Installed(tag))
    {
      var place := PlaceOf(root, tag);
      if place.Entry? && place.name != MARKER {
        installed := installed + {place.name};
      }
    }

    /** The marker receives the tag as it was given, not as it was resolved. */
    method Activate(version: string) returns (ok: bool)
      modifies this`active
      ensures ok == Resolve(old(View()), version).Some?
      ensures View() == Apply(old(View()), Activated(version))
    {
      var v := Trim(version);
      if v == "" || v == "current" {
        v := active;
      }
      ok := ValidTag(v) && v in installed;
      if ok {
        active := version;
      }
    }

    predicate Removable(version: string)
      reads this
    {
      if version in installed then version !in undeletable else found(version)
    }

    method Delete(version: string) returns (ok: bool)
      requires Valid()
      modifies this
      ensures Valid()
      ensures ok == (version != old(active) && old(Removable(version)))
      ensures View() == if ok then Apply(old(View()), Deleted(version)) else old(View())
    {
      ApplyKeepsNames(View(), Deleted(version));
      ok := version != active && Removable(version);
      if ok {
        RemoveAll(version);
      }
    }
  }

  /** A deletion that the guard lets through fails exactly if there is nothing to
      remove, or an installed version that cannot be removed. */
  lemma RemovableIff(store: Store, version: string)
    ensures version !in store.installed ==> (store.Removable(version) <==> store.found(version))
    ensures version in store.installed ==> (store.Removable(version) <==> version !in store.undeletable)
  {
  }

  // ---- Keeping the active version runnable -------------------------------

  /** An instance that follows the active version finds a binary to run. */
  predicate Runnable(s: State) {
    Resolve(s, "").Some?
  }

  lemma RunnableIsActive(s: State)
    ensures Runnable(s) <==> ValidTag(s.active) && s.active in s.installed
  {
    assert Trim("") == "";
  }

  /** What an operation must not do, read off its argument and the marker. */
  predicate Harmful(s: State, op: Op) {
    match op
    case Installed(_) => false
    case ExtractFailed(tag) => PlaceOf(s.root, tag) in {Covering, Entry(s.active)}
        && PlaceOf(s.root, tag) != Entry(MARKER)
    case Activated(tag) =>
      Resolve(s, tag).Some? && (!ValidTag(tag) || (tag == "current" && "current" !in s.installed))
    case Deleted(tag) =>
      tag != s.active && PlaceOf(s.root, tag) in {Covering, Entry(MARKER), Entry(s.active), Binary(s.active)}
  }

  /** The active version stays runnable across an operation exactly when the
      operation is not harmful. */
  lemma RunnableIffHarmless(s: State, op: Op)
    requires Runnable(s)
    ensures Runnable(Apply(s, op)) <==> !Harmful(s, op)
  {
    RunnableIsActive(s);
    RunnableIsActive(Apply(s, op));
    match op
    case Activated(tag) =>
      if ValidTag(tag) {
        assert Bare(tag, SPACES);
      }
    case _ =>
  }

  /** For tags that are single safe path segments, exactly three things do harm:
      a failed extraction over the active version, activating the alias, and
      deleting the marker under its own name. */
  lemma ValidTagHarmsIff(s: State, op: Op)
    requires Runnable(s) && ValidTag(op.tag)
    ensures Harmful(s, op) <==>
            match op
            case Installed(_) => false
            case ExtractFailed(tag) => tag == s.active && tag != MARKER
            case Activated(tag) => tag == "current" && "current" !in s.installed
            case Deleted(tag) => tag == MARKER && tag != s.active
  {
    ValidIsName(op.tag);
    NameIsEntry(s.root, op.tag);
    RunnableIsActive(s);
    assert Bare(op.tag, SPACES);
  }

  /** An installed version can be resolved by its tag from then on, and every one
      that could before still can. */
  lemma InstalledResolves(s: State, tag: string)
    requires ValidTag(tag) && tag != MARKER && tag != "current"
    ensures Resolve(Apply(s, Installed(tag)), tag) == Some(tag)
    ensures forall v :: v in Apply(s, Installed(tag)).installed <==> v in s.installed || v == tag
    ensures forall v :: Trim(v) != tag && !(Trim(v) in {"", "current"} && s.active == tag) ==>
              Resolve(Apply(s, Installed(tag)), v) == Resolve(s, v)
  {
    ValidIsName(tag);
    NameIsEntry(s.root, tag);
    assert Bare(tag, SPACES);
  }

  /** Whatever the tag, an installation adds the version whose directory the tag
      leads to, if it leads to one, and a failed extraction takes it away, and all
      of them if it leads to the root or above. */
  lemma DownloadsHitTheirPlace(s: State, tag: string, v: string)
    ensures var path := Walk(s.root, Segments(tag));
      && (v in Apply(s, Installed(tag)).installed <==> v in s.installed || (path == s.root + [v] && v != MARKER))
      && Apply(s, Installed(tag)).active == s.active
      && (v in Apply(s, ExtractFailed(tag)).installed <==>
            v in s.installed && !(path <= s.root) && (path == s.root + [v] ==> v == MARKER))
      && Apply(s, ExtractFailed(tag)).active == (if path <= s.root then "" else s.active)
  {
    PlaceIsEntry(s.root, tag, v);
    var path := Walk(s.root, Segments(tag));
    assert path == s.root + [v] ==> !(path <= s.root);
  }

  /** A deleted version is gone, and no other; the active one stays. */
  lemma DeletedIsGone(s: State, tag: string)
    requires ValidTag(tag) && tag != MARKER
    ensures forall v :: v in Apply(s, Deleted(tag)).installed <==> v in s.installed && (v != tag || v == s.active)
    ensures Apply(s, Deleted(tag)).active == s.active
  {
    ValidIsName(tag);
    NameIsEntry(s.root, tag);
  }

  /** What a configured tag stands for: itself, or the active version if it is
      blank or the alias, in either case only if that is installed. */
  lemma ResolvesAs(s: State, version: string)
    ensures Trim(version) !in {"", "current"} ==>
              (Resolve(s, version).Some? <==> ValidTag(Trim(version)) && Trim(version) in s.installed)
    ensures Trim(version) in {"", "current"} ==>
        (Resolve(s, version).Some? <==> ValidTag(s.active) && s.active in s.installed)
    ensures Resolve(s, version).Some? ==>
              Resolve(s, version).value == if Trim(version) in {"", "current"} then s.active else Trim(version)
  {
  }

  lemma TrimPadded(v: string)
    requires v != "" && Bare(v, SPACES)
    ensures Trim(v + " ") == v
  {
  }

  /** The store accepts an installed tag with a stray blank, and then has nothing to run. */
  lemma PaddedActivationBreaks(s: State, v: string)
    requires Runnable(s) && ValidTag(v) && v in s.installed
    ensures Resolve(s, v + " ").Some? && !Runnable(Apply(s, Activated(v + " ")))
  {
    TrimPadded(v);
    assert (v + " ")[|v|] == ' ';
    assert !ValidTag(v + " ");
    RunnableIffHarmless(s, Activated(v + " "));
  }

  /** It also accepts the alias of the active version itself, with the same outcome. */
  lemma AliasActivationBreaks(s: State)
    requires Runnable(s) && "current" !in s.installed
    ensures Resolve(s, "current").Some? && !Runnable(Apply(s, Activated("current")))
  {
    assert Trim("current") == "current" && Trim("") == "";
    RunnableIffHarmless(s, Activated("current"));
  }

  /** The marker's own name is a valid tag, and deleting it forgets the active version. */
  lemma MarkerDeletionBreaks(s: State)
    requires Runnable(s) && s.active != MARKER
    ensures ValidTag("active.json") && !Runnable(Apply(s, Deleted("active.json")))
  {
    ValidTagHarmsIff(s, Deleted(MARKER));
    RunnableIffHarmless(s, Deleted(MARKER));
  }

  /** The guard against deleting the active version compares spellings, so a
      trailing slash gets past it. */
  lemma SlashedDeletionBreaks(s: State)
    requires Runnable(s)
    ensures !Runnable(Apply(s, Deleted(s.active + "/")))
  {
    RunnableIsActive(s);
    ValidIsName(s.active);
    SlashIsEntry(s.root, s.active);
    RunnableIffHarmless(s, Deleted(s.active + "/"));
  }

  lemma SlashIsEntry(root: seq<string>, name: string)
    requires IsName(name)
    ensures PlaceOf(root, name + "/") == Entry(name)
  {
    var path := name + "/";
    assert forall i :: 0 <= i < |name| ==> name[i] in name;
    BeforeUnique(path, name, {'/'});
    BeforeUnique("", "", {'/'});
    assert path[|name| + 1..] == "";
    assert Segments(path) == [name] + Segments("") == [name, ""];
    assert [name, ""][1..] == [""];
    assert Walk(root, [name, ""]) == Walk(root + [name], [""]) == Walk(root + [name], []);
  }
}
