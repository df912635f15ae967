/** The system-wide table of open files and the descriptors of the processes. */
module FdTable {
  import opened Errors

  /** An open file: its reference count, and what it refers to. */
  datatype File = File(refs: nat, inode: nat, offset: nat)

  /** A descriptor that names no file. */
  const NONE: int := -1

  /** The descriptors of one process: file-table slots or NONE. */
  type Row = seq<int>

  // ----- Counting references -----

  /** How many of the first n descriptors of a row name file f. */
  function InRow(row: Row, f: int, n: nat): nat
    requires n <= |row|
  {
    if n == 0 then 0 else InRow(row, f, n - 1) + if row[n - 1] == f then 1 else 0
  }

  /** How many descriptors of the first n processes name file f. */
  function Refs(procs: seq<Row>, f: int, n: nat): nat
    requires n <= |procs|
  {
    if n == 0 then 0 else Refs(procs, f, n - 1) + InRow(procs[n - 1], f, |procs[n - 1]|)
  }

  function One(b: bool): nat
  {
    if b then 1 else 0
  }

  lemma {:induction false} InRowUpdate(row: Row, f: int, n: nat, i: nat, x: int)
    requires n <= |row| && i < |row|
    ensures InRow(row[i := x], f, n) + (if i < n then One(row[i] == f) else 0) ==
            InRow(row, f, n) + if i < n then One(x == f) else 0
  {
    if n > 0 {
      InRowUpdate(row, f, n - 1, i, x);
    }
  }

  lemma {:induction false} RefsOther(procs: seq<Row>, f: int, n: nat, p: nat, row: Row)
    requires n <= p < |procs|
    ensures Refs(procs[p := row], f, n) == Refs(procs, f, n)
  {
    if n > 0 {
      RefsOther(procs, f, n - 1, p, row);
    }
  }

  lemma {:induction false} RefsRow(procs: seq<Row>, f: int, n: nat, p: nat, row: Row)
    requires p < n <= |procs|
    ensures Refs(procs[p := row], f, n) + InRow(procs[p], f, |procs[p]|) == Refs(procs, f, n) + InRow(row, f, |row|)
  {
    if p == n - 1 {
      RefsOther(procs, f, n - 1, p, row);
    } else {
      RefsRow(procs, f, n - 1, p, row);
    }
  }

  function Set(procs: seq<Row>, p: nat, fd: nat, x: int): (r: seq<Row>)
    requires p < |procs| && fd < |procs[p]|
  {
    procs[p := procs[p][fd := x]]
  }

  /** Changing one descriptor moves one reference. */
  lemma RefsSet(procs: seq<Row>, f: int, p: nat, fd: nat, x: int)
    requires p < |procs| && fd < |procs[p]|
    ensures Refs(Set(procs, p, fd, x), f, |procs|) + One(procs[p][fd] == f) == Refs(procs, f, |procs|) + One(x == f)
  {
    hide Refs, InRow;
    RefsRow(procs, f, |procs|, p, procs[p][fd := x]);
    InRowUpdate(procs[p], f, |procs[p]|, fd, x);
  }

  lemma {:induction false} InRowNone(row: Row, f: int, n: nat)
    requires n <= |row|
    ensures InRow(row, f, n) == 0 <==> forall i :: 0 <= i < n ==> row[i] != f
  {
    if n > 0 {
      InRowNone(row, f, n - 1);
    }
  }

  /** A count of 0 means that no descriptor names the file. */
  lemma {:induction false} RefsNone(procs: seq<Row>, f: int, n: nat)
    requires n <= |procs|
    ensures Refs(procs, f, n) == 0 <==> forall p, i :: 0 <= p < n && 0 <= i < |procs[p]| ==> procs[p][i] != f
  {
    if n > 0 {
      RefsNone(procs, f, n - 1);
      InRowNone(procs[n - 1], f, |procs[n - 1]|);
    }
  }

  // ----- The state -----

  predicate Shaped(procs: seq<Row>, limit: nat, nfiles: nat)
  {
    forall p :: 0 <= p < |procs| ==>
      |procs[p]| == limit && forall i :: 0 <= i < limit ==> NONE <= procs[p][i] < nfiles
  }

  /** Every count equals the number of descriptors that name the file. */
  predicate Counted(files: seq<File>, procs: seq<Row>)
  {
    forall f :: 0 <= f < |files| ==> files[f].refs == Refs(procs, f, |procs|)
  }

  /** No slot below the search hint is free. */
  predicate Hinted(files: seq<File>, next: nat)
  {
    next <= |files| && forall f :: 0 <= f < next ==> files[f].refs > 0
  }

  predicate Sound(files: seq<File>, procs: seq<Row>, limit: nat, next: nat)
  {
    Shaped(procs, limit, |files|) && Counted(files, procs) && Hinted(files, next)
  }

  /** The least free descriptor at or after fd is nfd. */
  predicate LeastFree(row: Row, fd: nat, nfd: nat)
  {
    fd <= nfd < |row| && row[nfd] == NONE && forall i :: fd <= i < nfd ==> row[i] != NONE
  }

  predicate NoneFree(row: Row, fd: nat)
  {
    forall i :: fd <= i < |row| ==> row[i] != NONE
  }

  function Bump(files: seq<File>, f: nat, delta: int): (r: seq<File>)
    requires f < |files| && files[f].refs + delta >= 0
  {
    files[f := files[f].(refs := files[f].refs + delta)]
  }

  /** One more descriptor for file f. */
  lemma NamedOnce(files: seq<File>, procs: seq<Row>, limit: nat, next: nat, p: nat, fd: nat, f: nat)
    requires Sound(files, procs, limit, next) && p < |procs| && fd < limit && procs[p][fd] == NONE && f < |files|
    ensures Sound(Bump(files, f, 1), Set(procs, p, fd, f), limit, next)
  {
    hide Refs;
    forall g | 0 <= g < |files|
      ensures Bump(files, f, 1)[g].refs == Refs(Set(procs, p, fd, f), g, |procs|)
    {
      RefsSet(procs, g, p, fd, f);
    }
  }

  /** One descriptor less for file f; the slot is cleared with the last one. */
  function Dropped(files: seq<File>, f: nat): (r: seq<File>)
    requires f < |files| && files[f].refs > 0
  {
    if files[f].refs == 1 then files[f := File(0, 0, 0)] else Bump(files, f, -1)
  }

  lemma UnnamedOnce(files: seq<File>, procs: seq<Row>, limit: nat, next: nat, p: nat, fd: nat, f: nat, next': nat)
    requires Sound(files, procs, limit, next) && p < |procs| && fd < limit && procs[p][fd] == f && f < |files|
    requires next' <= next && next' <= f
    ensures files[f].refs > 0 && Sound(Dropped(files, f), Set(procs, p, fd, NONE), limit, next')
  {
    hide Refs;
    RefsSet(procs, f, p, fd, NONE);
    forall g | 0 <= g < |files|
      ensures Dropped(files, f)[g].refs == Refs(Set(procs, p, fd, NONE), g, |procs|)
    {
      RefsSet(procs, g, p, fd, NONE);
    }
  }

  // ----- The kernel's operations -----

  /** No descriptor of any process names f. */
  predicate Unnamed(procs: seq<Row>, f: int)
  {
    forall p, i :: 0 <= p < |procs| && 0 <= i < |procs[p]| ==> procs[p][i] != f
  }

  /** What the child of a fork has after its first n descriptors are copied. */
  function CopiedRow(parent: Row, child: Row, n: nat): (row: Row)
    requires n <= |parent| == |child|
    ensures |row| == |parent|
  {
    seq(|parent|, i requires 0 <= i < |parent| => if i < n then parent[i] else child[i])
  }

  predicate AllNone(row: Row)
  {
    forall i :: 0 <= i < |row| ==> row[i] == NONE
  }

  predicate SameFile(a: File, b: File)
  {
    a.inode == b.inode && a.offset == b.offset
  }

  /** The calls that a run is made of. */
  datatype Call =
    | Open(p: nat, fd: nat)
    | Close(p: nat, fd: nat)
    | Dup(p: nat, fd: nat, arg: int)
    | Forks(p: nat, child: nat)
    | Exits(p: nat)

  class FileTable {
    const limit: nat
    var files: seq<File>
    var procs: seq<Row>
    var next: nat

    predicate Valid()
      reads this
    {
      Sound(files, procs, limit, next)
    }

    /** At boot no file is open. */
    constructor (nfiles: nat, nprocs: nat, limit: nat)
      ensures Valid() && |files| == nfiles && |procs| == nprocs && this.limit == limit
      ensures forall p :: 0 <= p < nprocs ==> AllNone(procs[p])
    {
      this.limit := limit;
      files := seq(nfiles, i => File(0, 0, 0));
      procs := seq(nprocs, p => seq(limit, i => NONE));
      next := 0;
      new;
      forall f | 0 <= f < nfiles
        ensures Refs(procs, f, nprocs) == 0
      {
        RefsNone(procs, f, nprocs);
      }
    }

    /** The first free descriptor of process p at or after fd. */
    method FreeDescriptor(p: nat, fd: nat) returns (nfd: nat)
      requires Valid() && p < |procs|
      ensures nfd < limit ==> LeastFree(procs[p], fd, nfd)
      ensures nfd >= limit ==> NoneFree(procs[p], fd)
    {
      nfd := fd;
      while nfd < limit
        invariant fd <= nfd && forall i :: fd <= i < nfd && i < limit ==> procs[p][i] != NONE
      {
        if procs[p][nfd] == NONE {
          return;
        }
        nfd := nfd + 1;
      }
    }

    /**
     process_alloc_fd: ENFILE exactly when every slot of the table is in use,
     EMFILE when the process has no free descriptor; otherwise the least free
     descriptor now names a slot that no descriptor of any process named.
     */
    method AllocFd(p: nat, fd: nat) returns (ret: Err, nfd: nat, ghost f: nat)
      requires Valid() && p < |procs|
      modifies this
      ensures Valid()
      ensures ret == ENFILE <==> forall f :: 0 <= f < |old(files)| ==> old(files)[f].refs > 0
      ensures ret == EMFILE ==> NoneFree(old(procs)[p], fd)
      ensures ret == Ok || ret == ENFILE || ret == EMFILE
      ensures ret != Ok ==> files == old(files) && procs == old(procs)
      ensures ret == Ok ==>
        && LeastFree(old(procs)[p], fd, nfd) && f < |old(files)| && Unnamed(old(procs), f)
        && procs == Set(old(procs), p, nfd, f) && files == old(files)[f := old(files)[f].(refs := 1)]
    {
      hide Refs, Set;
      nfd, f := 0, 0;
      var file := next;
      while file < |files|
        invariant next <= file <= |files| && forall g :: 0 <= g < file ==> files[g].refs > 0
      {
        if files[file].refs == 0 {
          break;
        }
        file := file + 1;
      }
      if file == |files| {
        ret := ENFILE;
        return;
      }
      nfd := FreeDescriptor(p, fd);
      if nfd >= limit {
        ret := EMFILE;
        return;
      }
      f := file;
      RefsNone(procs, f, |procs|);
      NamedOnce(files, procs, limit, next, p, nfd, f);
      procs := Set(procs, p, nfd, file);
      files := Bump(files, file, 1);
      next := file + 1;
      ret := Ok;
    }

    /** process_free_fd */
    method FreeFd(p: nat, fd: nat) returns (ret: Err)
      requires Valid() && p < |procs| && fd < limit
      modifies this
      ensures Valid()
      ensures ret == if old(procs)[p][fd] == NONE then EBADF else Ok
      ensures ret != Ok ==> files == old(files) && procs == old(procs)
      ensures ret == Ok ==>
        var f := old(procs)[p][fd];
        && 0 <= f < |old(files)| && old(files)[f].refs > 0
        && files == Dropped(old(files), f) && procs == Set(old(procs), p, fd, NONE)
    {
      hide Refs, Set;
      var f := procs[p][fd];
      if f == NONE {
        return EBADF;
      }
      var next' := if f < next then f else next;
      UnnamedOnce(files, procs, limit, next, p, fd, f, next');
      procs := Set(procs, p, fd, NONE);
      files := Dropped(files, f);
      next := next';
      return Ok;
    }

    /** fcntl with F_DUPFD; fcntl has checked that fd is open. */
    method DupFd(p: nat, fd: nat, arg: int) returns (ret: Err, nfd: nat)
      requires Valid() && p < |procs| && fd < limit && procs[p][fd] != NONE
      modifies this
      ensures Valid()
      ensures ret == EINVAL <==> arg < 0 || arg >= limit
      ensures ret == EMFILE <==> 0 <= arg < limit && fd != arg && NoneFree(old(procs)[p], arg)
      ensures ret == Ok || ret == EINVAL || ret == EMFILE
      ensures ret != Ok || fd == arg ==> files == old(files) && procs == old(procs)
      ensures ret == Ok && fd == arg ==> nfd == fd
      ensures ret == Ok && fd != arg ==>
        && LeastFree(old(procs)[p], arg, nfd)
        && procs == Set(old(procs), p, nfd, old(procs)[p][fd]) && files == Bump(old(files), old(procs)[p][fd], 1)
    {
      hide Refs, Set;
      if arg < 0 || arg >= limit {
        return EINVAL, 0;
      }
      if fd == arg {
        return Ok, fd;
      }
      nfd := FreeDescriptor(p, arg);
      if nfd >= limit {
        return EMFILE, 0;
      }
      NamedOnce(files, procs, limit, next, p, nfd, procs[p][fd]);
      files := Bump(files, procs[p][fd], 1);
      procs := Set(procs, p, nfd, procs[p][fd]);
      ret := Ok;
    }

    /**
     The descriptor part of a fork: the child names what its parent names. The
     counts stay exact exactly when the child named nothing before.
     */
    method Fork(parent: nat, child: nat)
      requires Valid() && parent < |procs| && child < |procs|
      modifies this
      ensures procs == old(procs)[child := old(procs)[parent]] && next == old(next)
      ensures |files| == |old(files)| && forall f :: 0 <= f < |files| ==>
        files[f] == old(files)[f].(refs := old(files)[f].refs + InRow(old(procs)[parent], f, limit))
      ensures Valid() <==> AllNone(old(procs)[child])
    {
      hide Refs, Set;
      ghost var before, counts := procs, files;
      assert CopiedRow(before[parent], before[child], 0) == before[child];
      for i := 0 to limit
        invariant |files| == |counts| && next == old(next)
        invariant procs == before[child := CopiedRow(before[parent], before[child], i)]
        invariant forall f :: 0 <= f < |files| ==>
          files[f] == counts[f].(refs := counts[f].refs + InRow(before[parent], f, i))
      {
        var f := procs[parent][i];
        procs := Set(procs, child, i, f);
        if f != NONE {
          files := Bump(files, f, 1);
        }
        CopiedNext(before, parent, child, i);
      }
      assert CopiedRow(before[parent], before[child], limit) == before[parent];
      ForkCounts(counts, files, before, limit, next, parent, child);
    }

    /** The descriptor part of process_free: the process names nothing any more. */
    method Exit(p: nat)
      requires Valid() && p < |procs|
      modifies this
      ensures Valid() && |files| == |old(files)| && |procs| == |old(procs)|
      ensures AllNone(procs[p]) && forall q :: 0 <= q < |procs| && q != p ==> procs[q] == old(procs)[q]
      ensures forall f :: 0 <= f < |files| && files[f].refs > 0 ==> SameFile(old(files)[f], files[f])
    {
      hide Refs;
      for i := 0 to limit
        invariant Valid() && |files| == |old(files)| && |procs| == |old(procs)|
        invariant forall f :: 0 <= f < |files| && files[f].refs > 0 ==> SameFile(old(files)[f], files[f])
        invariant forall j :: 0 <= j < i ==> procs[p][j] == NONE
        invariant forall q :: 0 <= q < |procs| && q != p ==> procs[q] == old(procs)[q]
      {
        var _ := FreeFd(p, i);
      }
    }

    /**
     Every run of opens, closes, duplications, forks and exits keeps the counts
     and the search hint exact. A fork takes a process that names nothing, as an
     unused one does.
     */
    method Run(calls: seq<Call>)
      requires Valid()
      modifies this
      ensures Valid() && |files| == |old(files)| && |procs| == |old(procs)|
    {
      hide Refs;
      for k := 0 to |calls|
        invariant Valid() && |files| == |old(files)| && |procs| == |old(procs)|
      {
        match calls[k]
        case Open(p, fd) =>
          if p < |procs| {
            var _, _, _ := AllocFd(p, fd);
          }
        case Close(p, fd) =>
          if p < |procs| && fd < limit {
            var _ := FreeFd(p, fd);
          }
        case Dup(p, fd, arg) =>
          if p < |procs| && fd < limit && procs[p][fd] != NONE {
            var _, _ := DupFd(p, fd, arg);
          }
        case Forks(p, child) =>
          if p < |procs| && child < |procs| && AllNone(procs[child]) {
            Fork(p, child);
          }
        case Exits(p) =>
          if p < |procs| {
            Exit(p);
          }
      }
    }
  }

  lemma CopiedNext(procs: seq<Row>, parent: nat, child: nat, i: nat)
    requires parent < |procs| && child < |procs| && i < |procs[parent]| == |procs[child]|
    ensures Set(procs[child := CopiedRow(procs[parent], procs[child], i)], child, i, procs[parent][i]) ==
            procs[child := CopiedRow(procs[parent], procs[child], i + 1)]
  {
    assert CopiedRow(procs[parent], procs[child], i)[i := procs[parent][i]] ==
           CopiedRow(procs[parent], procs[child], i + 1);
  }

  /** The references that an overwritten row had are still counted. */
  lemma ForkCounts(was: seq<File>, now: seq<File>, procs: seq<Row>, limit: nat, next: nat, parent: nat, child: nat)
    requires Sound(was, procs, limit, next) && parent < |procs| && child < |procs| && |now| == |was|
    requires forall f :: 0 <= f < |now| ==> now[f] == was[f].(refs := was[f].refs + InRow(procs[parent], f, limit))
    ensures Sound(now, procs[child := procs[parent]], limit, next) <==> AllNone(procs[child])
  {
    hide Refs, InRow;
    var after := procs[child := procs[parent]];
    forall f | 0 <= f < |now|
      ensures now[f].refs == Refs(after, f, |after|) + InRow(procs[child], f, limit)
      ensures InRow(procs[child], f, limit) == 0 <==> forall i :: 0 <= i < limit ==> procs[child][i] != f
    {
      RefsRow(procs, f, |procs|, child, procs[parent]);
      InRowNone(procs[child], f, limit);
    }
    if i :| 0 <= i < limit && procs[child][i] != NONE {
      var f := procs[child][i];
      assert 0 <= f < |now| && now[f].refs != Refs(after, f, |after|);
      assert !Counted(now, after);
    }
  }
}
