/**
 * `untar` of internal/crane/crane_engine.go: read tar entries one at a time and
 * materialise them under a destination directory. The tar stream is a finite sequence of
 * reads (`TarRead`); the file system is a map from paths to nodes, held by a
 * `FileSystem` object that the extraction updates in place. Paths are looked up the way
 * the kernel does it: the directory part of a path is resolved through symbolic links,
 * a file opened for writing follows a link sitting at its own path, and a lookup gives up
 * after 40 links. Operating-system failures that the file system does not decide
 * (permissions, a full disk) are inputs (`Faults`).
 */
module CraneUntar {
  import opened Wrappers

  type Byte = bv8

  /** What a path holds. */
  datatype Node = Dir | File(data: seq<Byte>) | Symlink(target: string)

  datatype TypeFlag = TypeDir | TypeReg | TypeSymlink | TypeOther(flag: int)

  /**
   * A tar header with the entry's body: `body` is what `io.Copy` manages to read,
   * `bodyErr` the error that stopped it early, if any.
   */
  datatype Header = Header(name: string, typeflag: TypeFlag, linkname: string, body: seq<Byte>, bodyErr: Option<string>)

  /** One result of `tar.Reader.Next()`. */
  datatype TarRead = Entry(header: Header) | NilHeader | EndOfArchive | ReadError(err: string)

  /**
   * Failures the file system itself does not decide: `os.MkdirAll` and `os.OpenFile`
   * failing on a target (with the message they return) and `os.Symlink` failing on one.
   */
  datatype Faults = Faults(mkdirFails: map<string, string>, openFails: map<string, string>, symlinkFails: set<string>)

  /** `filepath.Join(dst, name)`, without its lexical clean-up. */
  function Target(dst: string, name: string): string
  {
    dst + "/" + name
  }

  /** The state after one step and the error that ends the extraction, if any. */
  datatype Step = Step(nodes: map<string, Node>, err: Option<string>)

  // ----- Path lookup -----

  /** The system errors of a lookup or a creation. */
  datatype Errno = ENOENT | ENOTDIR | EEXIST | EISDIR | ELOOP

  /** The errors' texts, as Go's `syscall.Errno` prints them on Linux. */
  function ErrnoText(e: Errno): string
  {
    match e
    case ENOENT => "no such file or directory"
    case ENOTDIR => "not a directory"
    case EEXIST => "file exists"
    case EISDIR => "is a directory"
    case ELOOP => "too many levels of symbolic links"
  }

  /** The errors a path lookup can end in. */
  predicate LookupErrno(e: Errno)
  {
    e == ENOENT || e == ENOTDIR || e == ELOOP
  }

  /** Linux follows at most 40 symbolic links in one lookup. */
  const MaxSymlinks: nat := 40

  /** The position of the last `/` in `p`, if any. */
  function LastSlash(p: string): (r: Option<nat>)
    ensures r.Some? ==> r.value < |p| && p[r.value] == '/'
    ensures r.Some? ==> forall k :: r.value < k < |p| ==> p[k] != '/'
    ensures r.None? ==> forall k :: 0 <= k < |p| ==> p[k] != '/'
  {
    if |p| == 0 then None
    else if p[|p| - 1] == '/' then Some(|p| - 1)
    else LastSlash(p[..|p| - 1])
  }

  /** How far a lookup got: the path reached and the links it may still follow, or the error it stopped with. */
  datatype Walk = Reached(path: string, budget: nat) | Failed(errno: Errno)

  /**
   * Where the last element of `p` lives: its directory part resolved through links (it
   * must be an existing directory), the last element itself not followed. A path
   * without a directory part, or directly under the root, is taken as it stands.
   */
  function Locate(nodes: map<string, Node>, p: string, budget: nat): (r: Walk)
    ensures r.Reached? ==> r.budget <= budget
    ensures r.Failed? ==> LookupErrno(r.errno)
    decreases budget, |p|, 0
  {
    match LastSlash(p)
    case None => Reached(p, budget)
    case Some(i) =>
      if i == 0 then Reached(p, budget)
      else
        var d := Resolve(nodes, p[..i], budget);
        if d.Failed? then d
        else if d.path !in nodes then Failed(ENOENT)
        else if !nodes[d.path].Dir? then Failed(ENOTDIR)
        else Reached(d.path + p[i..], d.budget)
  }

  /** The located path ends in the last element of `p`, which is not followed. */
  lemma LocateKeepsLastElement(nodes: map<string, Node>, p: string, budget: nat)
    ensures var r := Locate(nodes, p, budget);
      r.Reached? && LastSlash(p).None? ==> r.path == p
    ensures var r := Locate(nodes, p, budget);
      r.Reached? && LastSlash(p).Some? ==> var i := LastSlash(p).value;
      |p| - i <= |r.path| && r.path[|r.path| - (|p| - i)..] == p[i..]
  {
    var r := Locate(nodes, p, budget);
    if r.Reached? && LastSlash(p).Some? {
      var i := LastSlash(p).value;
      if i > 0 {
        var d := Resolve(nodes, p[..i], budget);
        assert r.path == d.path + p[i..];
      }
    }
  }

  /** Where a link stored at `at` points: an absolute target as written, a relative one beside the link. */
  function LinkDest(at: string, link: string): string
  {
    if |link| > 0 && link[0] == '/' then link
    else match LastSlash(at)
      case None => link
      case Some(i) => at[..i + 1] + link
  }

  /** The full lookup of `p`: located, then links at the end followed until none is left. */
  function Resolve(nodes: map<string, Node>, p: string, budget: nat): (r: Walk)
    ensures r.Reached? ==> r.budget <= budget
    ensures r.Reached? ==> r.path !in nodes || !nodes[r.path].Symlink?
    ensures r.Failed? ==> LookupErrno(r.errno)
    decreases budget, |p|, 1
  {
    var at := Locate(nodes, p, budget);
    if at.Reached? && at.path in nodes && nodes[at.path].Symlink? then
      if at.budget == 0 then Failed(ELOOP)
      else Resolve(nodes, LinkDest(at.path, nodes[at.path].target), at.budget - 1)
    else at
  }

  /** `os.Stat`: the node `p` leads to, following links, or nothing when the lookup fails. */
  function Stat(nodes: map<string, Node>, p: string): (r: Option<Node>)
    ensures r.Some? ==> !r.value.Symlink?
  {
    var r := Resolve(nodes, p, MaxSymlinks);
    if r.Reached? && r.path in nodes then Some(nodes[r.path]) else None
  }

  // ----- Creating directories -----

  /**
   * `os.Mkdir`: create a directory where `p`'s last element lives. When that fails,
   * `os.MkdirAll` accepts a directory already there (its `Lstat` check).
   */
  function Mkdir(nodes: map<string, Node>, p: string): (s: Step)
    ensures Extends(nodes, s.nodes)
    ensures forall k :: k in s.nodes && k !in nodes ==> s.nodes[k] == Dir
    ensures forall k :: k in s.nodes && k !in nodes ==> Locate(nodes, p, MaxSymlinks).Reached? && k == Locate(nodes, p, MaxSymlinks).path
    ensures s.err.Some? ==> s.nodes == nodes
    ensures s.err.None? ==> var at := Locate(nodes, p, MaxSymlinks);
      at.Reached? && at.path in s.nodes && s.nodes[at.path] == Dir
  {
    var at := Locate(nodes, p, MaxSymlinks);
    if at.Failed? then Step(nodes, Some("mkdir " + p + ": " + ErrnoText(at.errno)))
    else if at.path !in nodes then Step(nodes[at.path := Dir], None)
    else if nodes[at.path].Dir? then Step(nodes, None)
    else Step(nodes, Some("mkdir " + p + ": " + ErrnoText(EEXIST)))
  }

  /**
   * `os.MkdirAll`: nothing to do for a directory, an error for anything else that is
   * there; otherwise make the parent first and then the directory. Parents made before
   * a failure stay.
   */
  function MkdirAll(nodes: map<string, Node>, p: string): (s: Step)
    ensures Extends(nodes, s.nodes)
    ensures forall k :: k in s.nodes && k !in nodes ==> s.nodes[k] == Dir
    decreases |p|
  {
    var st := Stat(nodes, p);
    if st.Some? then
      if st.value.Dir? then Step(nodes, None) else Step(nodes, Some("mkdir " + p + ": " + ErrnoText(ENOTDIR)))
    else
      var parent := match LastSlash(p)
        case None => Step(nodes, None)
        case Some(i) => if i == 0 then Step(nodes, None) else MkdirAll(nodes, p[..i]);
      if parent.err.Some? then parent else Mkdir(parent.nodes, p)
  }

  // ----- One entry, and the whole extraction -----

  /** Opening an existing file without `O_TRUNC` and writing `data` overwrites only its first bytes. */
  function Overwrite(prior: seq<Byte>, data: seq<Byte>): (r: seq<Byte>)
    ensures |r| == if |data| >= |prior| then |data| else |prior|
    ensures r[..|data|] == data
    ensures |data| < |prior| ==> r[|data|..] == prior[|data|..]
  {
    if |data| >= |prior| then data else data + prior[|data|..]
  }

  /** The contents of the file at `q` once `body` is written into it. */
  function Written(nodes: map<string, Node>, q: string, body: seq<Byte>): seq<Byte>
  {
    if q in nodes && nodes[q].File? then Overwrite(nodes[q].data, body) else body
  }

  /** What one header does to the file system. */
  function Apply(nodes: map<string, Node>, dst: string, h: Header, faults: Faults): (s: Step)
    ensures Keeps(nodes, s.nodes)
  {
    var target := Target(dst, h.name);
    match h.typeflag
    case TypeDir =>
      if Stat(nodes, target).Some? then Step(nodes, None)
      else if target in faults.mkdirFails then Step(nodes, Some(faults.mkdirFails[target]))
      else MkdirAll(nodes, target)
    case TypeReg =>
      if target in faults.openFails then Step(nodes, Some(faults.openFails[target]))
      else
        var at := Resolve(nodes, target, MaxSymlinks);
        if at.Failed? then Step(nodes, Some("open " + target + ": " + ErrnoText(at.errno)))
        else if at.path in nodes && nodes[at.path].Dir? then Step(nodes, Some("open " + target + ": " + ErrnoText(EISDIR)))
        else Step(nodes[at.path := File(Written(nodes, at.path, h.body))], h.bodyErr)
    case TypeSymlink =>
      if target in faults.symlinkFails then Step(nodes, None)
      else
        var at := Locate(nodes, target, MaxSymlinks);
        if at.Failed? || at.path in nodes then Step(nodes, None)
        else Step(nodes[at.path := Symlink(h.linkname)], None)
    case TypeOther(_) =>
      Step(nodes, None)
  }

  /** The whole extraction: the final file system and the returned error. */
  function Extract(nodes: map<string, Node>, dst: string, stream: seq<TarRead>, faults: Faults): (s: Step)
    ensures Keeps(nodes, s.nodes)
    decreases |stream|
  {
    if |stream| == 0 then Step(nodes, None)
    else match stream[0]
      case EndOfArchive => Step(nodes, None)
      case ReadError(e) => Step(nodes, Some(e))
      case NilHeader => Extract(nodes, dst, stream[1..], faults)
      case Entry(h) =>
        var s := Apply(nodes, dst, h, faults);
        if s.err.Some? then s else Extract(s.nodes, dst, stream[1..], faults)
  }

  /** The file system the extraction writes into. */
  class FileSystem {
    var nodes: map<string, Node>

    constructor (initial: map<string, Node>)
      ensures nodes == initial
    {
      nodes := initial;
    }
  }

  /** `p[..i]` for each `/` of `p` past the first character: the directories above `p`. */
  predicate IsAncestor(a: string, p: string)
  {
    0 < |a| < |p| && p[|a|] == '/' && a == p[..|a|]
  }

  /** A file system holding the directory `dst` and every directory above it, and nothing else. */
  function DirectoryTree(dst: string): (t: map<string, Node>)
    ensures dst in t && t[dst] == Dir
    ensures forall a :: a in t ==> t[a] == Dir && (a == dst || IsAncestor(a, dst))
    ensures forall a :: IsAncestor(a, dst) ==> a in t
    decreases |dst|
  {
    match LastSlash(dst)
    case None => map[dst := Dir]
    case Some(i) =>
      if i == 0 then map[dst := Dir]
      else
        var t := DirectoryTree(dst[..i])[dst := Dir];
        assert forall a :: IsAncestor(a, dst) ==> a == dst[..i] || IsAncestor(a, dst[..i]);
        t
  }

  /**
   * The extraction loop: one entry per iteration, stopping at the end of the archive
   * or at the first error.
   */
  method Untar(fs: FileSystem, dst: string, stream: seq<TarRead>, faults: Faults) returns (err: Option<string>)
    modifies fs
    ensures Step(fs.nodes, err) == Extract(old(fs.nodes), dst, stream, faults)
  {
    var i := 0;
    while i < |stream|
      invariant 0 <= i <= |stream|
      invariant Extract(fs.nodes, dst, stream[i..], faults) == Extract(old(fs.nodes), dst, stream, faults)
      decreases |stream| - i
    {
      assert stream[i..][1..] == stream[i + 1..];
      match stream[i] {
      case EndOfArchive =>
        return None;
      case ReadError(e) =>
        return Some(e);
      case NilHeader =>
        i := i + 1;
        continue;
      case Entry(h) =>
        var target := Target(dst, h.name);
        match h.typeflag {
        case TypeDir =>
          if Stat(fs.nodes, target).None? {
            if target in faults.mkdirFails {
              return Some(faults.mkdirFails[target]);
            }
            var made := MkdirAll(fs.nodes, target);
            fs.nodes := made.nodes;
            if made.err.Some? {
              return made.err;
            }
          }
        case TypeReg =>
          if target in faults.openFails {
            return Some(faults.openFails[target]);
          }
          var at := Resolve(fs.nodes, target, MaxSymlinks);
          if at.Failed? {
            return Some("open " + target + ": " + ErrnoText(at.errno));
          }
          if at.path in fs.nodes && fs.nodes[at.path].Dir? {
            return Some("open " + target + ": " + ErrnoText(EISDIR));
          }
          fs.nodes := fs.nodes[at.path := File(Written(fs.nodes, at.path, h.body))];
          if h.bodyErr.Some? {
            return h.bodyErr;
          }
        case TypeSymlink =>
          if target in faults.symlinkFails {
            i := i + 1;
            continue;
          }
          var at := Locate(fs.nodes, target, MaxSymlinks);
          if at.Failed? || at.path in fs.nodes {
            i := i + 1;
            continue;
          }
          fs.nodes := fs.nodes[at.path := Symlink(h.linkname)];
        case TypeOther(_) =>
        }
      }
      i := i + 1;
    }
    return None;
  }

  // ----- Lookups -----

  /** `big` holds everything `small` holds, unchanged. */
  predicate Extends(small: map<string, Node>, big: map<string, Node>)
  {
    forall k :: k in small ==> k in big && big[k] == small[k]
  }

  /** A lookup that ends in an existing directory passed only through existing paths: adding paths does not change it. */
  lemma {:induction false} LocateStable(small: map<string, Node>, big: map<string, Node>, p: string, budget: nat)
    requires Extends(small, big)
    requires Locate(small, p, budget).Reached?
    ensures Locate(big, p, budget) == Locate(small, p, budget)
    decreases budget, |p|, 0
  {
    match LastSlash(p)
    case None =>
    case Some(i) =>
      if i > 0 {
        ResolveStable(small, big, p[..i], budget);
      }
  }

  /** A lookup that ends at an existing path is not changed by adding paths. */
  lemma {:induction false} ResolveStable(small: map<string, Node>, big: map<string, Node>, p: string, budget: nat)
    requires Extends(small, big)
    requires Resolve(small, p, budget).Reached? && Resolve(small, p, budget).path in small
    ensures Resolve(big, p, budget) == Resolve(small, p, budget)
    decreases budget, |p|, 1
  {
    var at := Locate(small, p, budget);
    LocateStable(small, big, p, budget);
    if at.path in small && small[at.path].Symlink? && at.budget > 0 {
      ResolveStable(small, big, LinkDest(at.path, small[at.path].target), at.budget - 1);
    }
  }

  /** A path whose directory part resolves has only directories above it. */
  lemma {:induction false} AncestorsAreDirectories(nodes: map<string, Node>, p: string)
    requires Locate(nodes, p, MaxSymlinks).Reached?
    ensures forall a :: IsAncestor(a, p) ==> Stat(nodes, a) == Some(Dir)
    decreases |p|
  {
    match LastSlash(p)
    case None =>
    case Some(i) =>
      if i > 0 {
        var q := p[..i];
        assert Stat(nodes, q) == Some(Dir);
        assert Locate(nodes, q, MaxSymlinks).Reached?;
        AncestorsAreDirectories(nodes, q);
        forall a | IsAncestor(a, p)
          ensures Stat(nodes, a) == Some(Dir)
        {
          if |a| < i {
            assert IsAncestor(a, q);
          }
        }
      }
  }

  /** With no symbolic link anywhere, every lookup that succeeds ends at the path itself. */
  lemma {:induction false} LinkFreeLookup(nodes: map<string, Node>, p: string, budget: nat)
    requires NoSymlinks(nodes)
    ensures Locate(nodes, p, budget).Reached? ==> Locate(nodes, p, budget).path == p
    ensures Resolve(nodes, p, budget).Reached? ==> Resolve(nodes, p, budget).path == p
    decreases |p|
  {
    var at := Locate(nodes, p, budget);
    assert Resolve(nodes, p, budget) == at;
    match LastSlash(p)
    case None =>
    case Some(i) =>
      if i > 0 {
        var d := Resolve(nodes, p[..i], budget);
        LinkFreeLookup(nodes, p[..i], budget);
        if at.Reached? {
          assert at.path == d.path + p[i..];
          assert p[..i] + p[i..] == p;
        }
      }
  }

  predicate NoSymlinks(nodes: map<string, Node>)
  {
    forall k :: k in nodes ==> !nodes[k].Symlink?
  }

  // ----- Directories -----


  /** When `MkdirAll` succeeds, `p` and every directory above it are directories. */
  lemma MkdirAllMakesDirectory(nodes: map<string, Node>, p: string)
    ensures MkdirAll(nodes, p).err.None? ==> Stat(MkdirAll(nodes, p).nodes, p) == Some(Dir)
    ensures MkdirAll(nodes, p).err.None? ==>
      forall a :: IsAncestor(a, p) ==> Stat(MkdirAll(nodes, p).nodes, a) == Some(Dir)
  {
    var s := MkdirAll(nodes, p);
    if s.err.None? && Stat(nodes, p).None? {
      var parent := match LastSlash(p)
        case None => Step(nodes, None)
        case Some(i) => if i == 0 then Step(nodes, None) else MkdirAll(nodes, p[..i]);
      var n1 := parent.nodes;
      assert s == Mkdir(n1, p);
      var at := Locate(n1, p, MaxSymlinks);
      if at.path !in n1 {
        LocateStable(n1, s.nodes, p, MaxSymlinks);
      }
    }
    if s.err.None? {
      AncestorsAreDirectories(s.nodes, p);
    }
  }

  /**
   * A directory entry whose target is there already, as anything, changes nothing.
   * Otherwise `MkdirAll` runs: on success the target and every directory above it are
   * directories, made where missing; existing paths are never changed.
   */
  lemma DirectoryEntryCreatesPath(nodes: map<string, Node>, dst: string, h: Header, faults: Faults)
    requires h.typeflag == TypeDir
    ensures var t := Target(dst, h.name);
      && (Stat(nodes, t).Some? ==> Apply(nodes, dst, h, faults) == Step(nodes, None))
      && (Stat(nodes, t).None? && t in faults.mkdirFails ==>
            Apply(nodes, dst, h, faults) == Step(nodes, Some(faults.mkdirFails[t])))
      && (Stat(nodes, t).None? && Apply(nodes, dst, h, faults).err.None? ==>
            Stat(Apply(nodes, dst, h, faults).nodes, t) == Some(Dir)
            && forall a :: IsAncestor(a, t) ==> Stat(Apply(nodes, dst, h, faults).nodes, a) == Some(Dir))
      && Extends(nodes, Apply(nodes, dst, h, faults).nodes)
  {
    var t := Target(dst, h.name);
    MkdirAllMakesDirectory(nodes, t);
  }

  // ----- Regular files -----

  /**
   * A regular file is opened by a full lookup of its target, which follows a link already
   * sitting there; a failed lookup is `open`'s error and changes nothing, and so does a
   * directory at the end. Otherwise the body goes to the path the lookup reached: the
   * file starts with the body, a new file is exactly the body, an existing longer file
   * keeps its old trailing bytes (no truncation), and no other path changes. A failed
   * body read ends the extraction with that error, the bytes read so far written.
   */
  lemma RegularFileWritten(nodes: map<string, Node>, dst: string, h: Header, faults: Faults)
    requires h.typeflag == TypeReg
    requires Target(dst, h.name) !in faults.openFails
    ensures var t := Target(dst, h.name);
      var at := Resolve(nodes, t, MaxSymlinks);
      var s := Apply(nodes, dst, h, faults);
      && (at.Failed? ==> s == Step(nodes, Some("open " + t + ": " + ErrnoText(at.errno))))
      && (at.Reached? && at.path in nodes && nodes[at.path].Dir? ==>
            s == Step(nodes, Some("open " + t + ": " + ErrnoText(EISDIR))))
      && (at.Reached? && (at.path !in nodes || !nodes[at.path].Dir?) ==>
            && s.err == h.bodyErr
            && at.path in s.nodes && s.nodes[at.path].File?
            && s.nodes[at.path].data[..|h.body|] == h.body
            && (at.path !in nodes ==> s.nodes[at.path].data == h.body)
            && (at.path in nodes && |h.body| < |nodes[at.path].data| ==>
                  s.nodes[at.path].data == h.body + nodes[at.path].data[|h.body|..])
            && s.nodes - {at.path} == nodes - {at.path})
  {
    var t := Target(dst, h.name);
    var at := Resolve(nodes, t, MaxSymlinks);
    if at.Reached? && (at.path !in nodes || !nodes[at.path].Dir?) {
      var s := Apply(nodes, dst, h, faults);
      assert s.nodes[at.path].data[..|h.body|] == h.body;
    }
  }

  /**
   * A link entry followed by a file entry of the same name writes the file where the
   * link points, which may be outside `dst`; the link itself stays.
   */
  lemma SymlinkRedirectsLaterFile(nodes: map<string, Node>, dst: string, name: string, link: string,
                                  body: seq<Byte>, faults: Faults)
    requires Target(dst, name) !in faults.symlinkFails && Target(dst, name) !in faults.openFails
    requires Locate(nodes, Target(dst, name), MaxSymlinks).Reached?
    requires Locate(nodes, Target(dst, name), MaxSymlinks).path !in nodes
    requires Locate(nodes, Target(dst, name), MaxSymlinks).budget > 0
    requires |link| > 0 && link[0] == '/'
    requires var at := Locate(nodes, Target(dst, name), MaxSymlinks);
      var linked := nodes[at.path := Symlink(link)];
      var q := Resolve(linked, link, at.budget - 1);
      q.Reached? && (q.path !in linked || !linked[q.path].Dir?)
    ensures var at := Locate(nodes, Target(dst, name), MaxSymlinks);
      var linked := nodes[at.path := Symlink(link)];
      var q := Resolve(linked, link, at.budget - 1);
      var s := Extract(nodes, dst, [Entry(Header(name, TypeSymlink, link, [], None)),
                                    Entry(Header(name, TypeReg, "", body, None))], faults);
      && s.err.None?
      && at.path in s.nodes && s.nodes[at.path] == Symlink(link)
      && q.path != at.path
      && q.path in s.nodes && s.nodes[q.path].File?
      && |body| <= |s.nodes[q.path].data| && s.nodes[q.path].data[..|body|] == body
  {
    var t := Target(dst, name);
    var at := Locate(nodes, t, MaxSymlinks);
    var linked := nodes[at.path := Symlink(link)];
    var hl := Header(name, TypeSymlink, link, [], None);
    var hf := Header(name, TypeReg, "", body, None);
    assert Apply(nodes, dst, hl, faults) == Step(linked, None);
    LocateStable(nodes, linked, t, MaxSymlinks);
    assert Resolve(linked, t, MaxSymlinks) == Resolve(linked, link, at.budget - 1);
    var q := Resolve(linked, link, at.budget - 1);
    var final := Apply(linked, dst, hf, faults);
    assert final == Step(linked[q.path := File(Written(linked, q.path, body))], None);
    assert final.nodes[q.path].data[..|body|] == body;
    ExtractTwoEntries(nodes, dst, hl, hf, faults);
  }

  /** Two entries that both apply cleanly are extracted one after the other. */
  lemma ExtractTwoEntries(nodes: map<string, Node>, dst: string, h1: Header, h2: Header, faults: Faults)
    requires Apply(nodes, dst, h1, faults).err.None?
    ensures var s1 := Apply(nodes, dst, h1, faults);
      Extract(nodes, dst, [Entry(h1), Entry(h2)], faults) == Apply(s1.nodes, dst, h2, faults)
  {
    var stream := [Entry(h1), Entry(h2)];
    var s1 := Apply(nodes, dst, h1, faults);
    assert stream[1..] == [Entry(h2)];
    assert stream[1..][1..] == [];
    assert Extract(nodes, dst, stream, faults) == Extract(s1.nodes, dst, stream[1..], faults);
  }

  // ----- Links -----

  /** A symbolic link that cannot be created is skipped: extraction carries on as if the entry were absent. */
  lemma {:induction false} SymlinkFailureNotFatal(nodes: map<string, Node>, dst: string, h: Header, rest: seq<TarRead>, faults: Faults)
    requires h.typeflag == TypeSymlink
    requires Target(dst, h.name) in faults.symlinkFails
      || Locate(nodes, Target(dst, h.name), MaxSymlinks).Failed?
      || Locate(nodes, Target(dst, h.name), MaxSymlinks).path in nodes
    ensures Extract(nodes, dst, [Entry(h)] + rest, faults) == Extract(nodes, dst, rest, faults)
  {
    var a := [Entry(h)] + rest;
    assert a[0] == Entry(h) && a[1..] == rest;
    assert Apply(nodes, dst, h, faults) == Step(nodes, None);
  }

  // ----- The stream -----

  /** Nothing after the end-of-archive marker is read. */
  lemma {:induction false} StopsAtEndOfArchive(nodes: map<string, Node>, dst: string, pre: seq<TarRead>, post: seq<TarRead>, faults: Faults)
    ensures Extract(nodes, dst, pre + [EndOfArchive] + post, faults) == Extract(nodes, dst, pre + [EndOfArchive], faults)
    decreases |pre|
  {
    var a := pre + [EndOfArchive] + post;
    var b := pre + [EndOfArchive];
    if |pre| == 0 {
      assert a[0] == EndOfArchive && b[0] == EndOfArchive;
    } else {
      assert a[0] == pre[0] && b[0] == pre[0];
      assert a[1..] == pre[1..] + [EndOfArchive] + post;
      assert b[1..] == pre[1..] + [EndOfArchive];
      match pre[0]
      case EndOfArchive =>
      case ReadError(_) =>
      case NilHeader =>
        StopsAtEndOfArchive(nodes, dst, pre[1..], post, faults);
      case Entry(h) =>
        var s := Apply(nodes, dst, h, faults);
        if s.err.None? {
          StopsAtEndOfArchive(s.nodes, dst, pre[1..], post, faults);
        }
    }
  }

  /** A read error ends the extraction with that error and the file system as it stands. */
  lemma ReadErrorIsReturned(nodes: map<string, Node>, dst: string, e: string, rest: seq<TarRead>, faults: Faults)
    ensures Extract(nodes, dst, [ReadError(e)] + rest, faults) == Step(nodes, Some(e))
  {
    assert ([ReadError(e)] + rest)[0] == ReadError(e);
  }

  /** A nil header is skipped: the extraction is the same as without it. */
  lemma {:induction false} NilHeaderSkipped(nodes: map<string, Node>, dst: string, pre: seq<TarRead>, post: seq<TarRead>, faults: Faults)
    ensures Extract(nodes, dst, pre + [NilHeader] + post, faults) == Extract(nodes, dst, pre + post, faults)
    decreases |pre|
  {
    var a := pre + [NilHeader] + post;
    var b := pre + post;
    if |pre| == 0 {
      assert a[0] == NilHeader && a[1..] == post && b == post;
    } else {
      assert a[0] == pre[0] && b[0] == pre[0];
      assert a[1..] == pre[1..] + [NilHeader] + post;
      assert b[1..] == pre[1..] + post;
      match pre[0]
      case EndOfArchive =>
      case ReadError(_) =>
      case NilHeader =>
        NilHeaderSkipped(nodes, dst, pre[1..], post, faults);
      case Entry(h) =>
        var s := Apply(nodes, dst, h, faults);
        if s.err.None? {
          NilHeaderSkipped(s.nodes, dst, pre[1..], post, faults);
        }
    }
  }

  /**
   * Every path that was there is still there; a directory or a link is left exactly as
   * it was, and a file stays a file (only its contents can change).
   */
  predicate Keeps(before: map<string, Node>, after: map<string, Node>)
  {
    forall k :: k in before ==> k in after && (before[k].File? ==> after[k].File?) && (!before[k].File? ==> after[k] == before[k])
  }



  // ----- Extraction without links -----

  /** Without links, `MkdirAll` adds only `p` and the directories above it. */
  lemma {:induction false} LinkFreeMkdirAll(nodes: map<string, Node>, p: string)
    requires NoSymlinks(nodes)
    ensures forall k :: k in MkdirAll(nodes, p).nodes && k !in nodes ==> k == p || IsAncestor(k, p)
    decreases |p|
  {
    if Stat(nodes, p).None? {
      var parent := match LastSlash(p)
        case None => Step(nodes, None)
        case Some(i) => if i == 0 then Step(nodes, None) else MkdirAll(nodes, p[..i]);
      assert forall k :: k in parent.nodes && k !in nodes ==> IsAncestor(k, p) by {
        if LastSlash(p).Some? && LastSlash(p).value > 0 {
          var q := p[..LastSlash(p).value];
          LinkFreeMkdirAll(nodes, q);
          forall k | k in parent.nodes && k !in nodes
            ensures IsAncestor(k, p)
          {
            if k != q {
              assert IsAncestor(k, q);
              assert q[..|k|] == p[..|k|];
            }
          }
        }
      }
      if parent.err.None? {
        assert NoSymlinks(parent.nodes);
        LinkFreeLookup(parent.nodes, p, MaxSymlinks);
        var last := Mkdir(parent.nodes, p);
        assert MkdirAll(nodes, p) == last;
      }
    }
  }

  /** Without links, one entry adds only its target and the directories above it, and no link. */
  lemma LinkFreeApply(nodes: map<string, Node>, dst: string, h: Header, faults: Faults)
    requires NoSymlinks(nodes)
    requires h.typeflag != TypeSymlink
    ensures NoSymlinks(Apply(nodes, dst, h, faults).nodes)
    ensures forall k :: k in Apply(nodes, dst, h, faults).nodes && k !in nodes ==>
      k == Target(dst, h.name) || IsAncestor(k, Target(dst, h.name))
  {
    var t := Target(dst, h.name);
    LinkFreeLookup(nodes, t, MaxSymlinks);
    if h.typeflag == TypeDir {
      LinkFreeMkdirAll(nodes, t);
    }
  }

  /**
   * With no link in the tree and none in the archive, the extraction adds a path only
   * when it is the target of an entry or a directory above one.
   */
  lemma {:induction false} LinkFreeExtractionWritesOnlyTargets(nodes: map<string, Node>, dst: string, stream: seq<TarRead>,
                                                             faults: Faults, p: string)
    requires NoSymlinks(nodes)
    requires forall i :: 0 <= i < |stream| && stream[i].Entry? ==> stream[i].header.typeflag != TypeSymlink
    requires p !in nodes
    requires forall i :: 0 <= i < |stream| && stream[i].Entry? ==>
      p != Target(dst, stream[i].header.name) && !IsAncestor(p, Target(dst, stream[i].header.name))
    ensures p !in Extract(nodes, dst, stream, faults).nodes
    decreases |stream|
  {
    if |stream| > 0 {
      match stream[0]
      case EndOfArchive =>
      case ReadError(_) =>
      case NilHeader =>
        LinkFreeExtractionWritesOnlyTargets(nodes, dst, stream[1..], faults, p);
      case Entry(h) =>
        var s := Apply(nodes, dst, h, faults);
        LinkFreeApply(nodes, dst, h, faults);
        if s.err.None? {
          LinkFreeExtractionWritesOnlyTargets(s.nodes, dst, stream[1..], faults, p);
        }
    }
  }
}
