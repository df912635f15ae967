/**
 Directory blocks as the kernel updates them in place, and what runs of links
 and unlinks mean for the directory they stand for.
 */
module Ext2DirOps {
  import opened Bytes
  import opened Memory
  import opened Ext2Dir

  const DIRTYPE_DIR: byte := 2

  // ----- A new block -----

  const TAIL_BYTES: seq<byte> := [0, 0, 0, 0, 12, 0, 0, 0xde, 0, 0, 0, 0]

  /** "." and ".." as the first two records, the second up to the end. */
  function Dots(b: Mem, ino: nat, parent: nat, typed: bool, csum: bool): (c: Mem)
    requires Sized(b) && 0 < ino < WORD_LIMIT && 0 < parent < WORD_LIMIT
    ensures |c| == |b|
  {
    var dot := SetLen(Claim(b, 0, Link([46], ino, DIRTYPE_DIR, typed, csum)), 0, Need(1));
    var up := SetLen(dot, Need(1), |b| - CsumSize(csum) - Need(1));
    Claim(up, Need(1), Link([46, 46], parent, DIRTYPE_DIR, typed, csum))
  }

  function NewDirBlock(n: nat, ino: nat, parent: nat, typed: bool, csum: bool): (b: Mem)
    requires Sized(Zeros(n)) && ino < WORD_LIMIT && (ino == 0 || 0 < parent < WORD_LIMIT)
    ensures |b| == n
  {
    var b := SetLen(Zeros(n), 0, n - CsumSize(csum));
    var c := if ino == 0 then b else Dots(b, ino, parent, typed, csum);
    if csum then Put(c, n - TAIL, TAIL_BYTES) else c
  }

  lemma ZeroHead(n: nat, o: nat)
    requires o + HEAD <= n
    ensures Ino(Zeros(n), o) == 0 && NameLen(Zeros(n), o) == 0
  {
  }

  lemma DotsTile(b: Mem, e: nat, ino: nat, parent: nat, typed: bool, csum: bool)
    requires Sized(b) && 0 < ino < WORD_LIMIT && 0 < parent < WORD_LIMIT
    requires e + CsumSize(csum) == |b| && Legal(b, 0, e) && Len(b, 0) == e && NameLen(b, Need(1)) == 0
    ensures var c := Dots(b, ino, parent, typed, csum);
            && Only(b, c, 0, e) && Reaches(c, 0, e) && |Names(c, 0, e)| == 2
            && Describes(Link([46], ino, DIRTYPE_DIR, typed, csum), Names(c, 0, e)[0])
            && Describes(Link([46, 46], parent, DIRTYPE_DIR, typed, csum), Names(c, 0, e)[1])
  {
    hide Ino, Len, EntryAt, SetLen, Claim, Names, Reaches, Describes, Dots;
    var one := Link([46], ino, DIRTYPE_DIR, typed, csum);
    var two := Link([46, 46], parent, DIRTYPE_DIR, typed, csum);
    ClaimMakes(b, 0, e, one);
    var b1 := Claim(b, 0, one);
    Resized(b1, 0, e, 12);
    var b2 := SetLen(b1, 0, 12);
    assert NameLen(b2, 12) == NameLen(b, 12);
    SetLenStores(b2, 12, e - 12);
    var b3 := SetLen(b2, 12, e - 12);
    assert Legal(b3, 12, e);
    ClaimMakes(b3, 12, e, two);
    var c := Claim(b3, 12, two);
    DotsBody(b, ino, parent, typed, csum, one, two, b1, b2, b3);
    OnlySame(b2, c, 12, e, 0, 12);
    SameRecord(b2, c, 0, e);
    ReachesEnd(c, e);
    NamesStep(c, 12, e);
    NamesStep(c, 0, e);
    NamesEnd(c, e, e);
  }

  lemma ReachesEnd(b: Mem, e: nat)
    ensures Reaches(b, e, e)
  {
  }

  lemma DotsBody(b: Mem, ino: nat, parent: nat, typed: bool, csum: bool, one: Link, two: Link, b1: Mem, b2: Mem,
                 b3: Mem)
    requires Sized(b) && 0 < ino < WORD_LIMIT && 0 < parent < WORD_LIMIT
    requires one == Link([46], ino, DIRTYPE_DIR, typed, csum) && two == Link([46, 46], parent, DIRTYPE_DIR, typed, csum)
    requires b1 == Claim(b, 0, one) && b2 == SetLen(b1, 0, 12) && b3 == SetLen(b2, 12, |b| - CsumSize(csum) - 12)
    ensures Dots(b, ino, parent, typed, csum) == Claim(b3, 12, two)
  {
    hide SetLen, Claim;
  }

  lemma TailMade(c: Mem)
    requires Sized(c)
    ensures var b := Put(c, |c| - TAIL, TAIL_BYTES);
            Only(c, b, |c| - TAIL, |c|) && IsTail(b, |c| - TAIL, true)
  {
    var b := Put(c, |c| - TAIL, TAIL_BYTES);
    hide WordAt;
    SameWord(b, |c| - TAIL, WordBytes(0), 0);
    WordRoundTrip(0);
  }

  /** A new directory block is tiled: by one free record, or by "." and "..". */
  lemma NewDirBlockTiles(n: nat, ino: nat, parent: nat, typed: bool, csum: bool)
    requires Sized(Zeros(n)) && ino < WORD_LIMIT && (ino == 0 || 0 < parent < WORD_LIMIT)
    ensures var e := n - CsumSize(csum);
            var b := NewDirBlock(n, ino, parent, typed, csum);
            && Ends(b, e, csum) && Reaches(b, 0, e)
            && (ino == 0 ==> Names(b, 0, e) == [])
            && (ino != 0 ==> |Names(b, 0, e)| == 2
                             && Describes(Link([46], ino, DIRTYPE_DIR, typed, csum), Names(b, 0, e)[0])
                             && Describes(Link([46, 46], parent, DIRTYPE_DIR, typed, csum), Names(b, 0, e)[1]))
  {
    hide Ino, Len, EntryAt, SetLen, Claim, Names, Reaches, Describes, Dots, IsTail, Zeros;
    var e := n - CsumSize(csum);
    ZeroHead(n, 0);
    ZeroHead(n, 12);
    SetLenStores(Zeros(n), 0, e);
    var b := SetLen(Zeros(n), 0, e);
    var c := if ino == 0 then b else Dots(b, ino, parent, typed, csum);
    assert Legal(b, 0, e);
    if ino == 0 {
      ReachesEnd(b, e);
      NamesStep(b, 0, e);
      NamesEnd(b, e, e);
    } else {
      DotsTile(b, e, ino, parent, typed, csum);
    }
    if csum {
      TailMade(c);
      var d := Put(c, n - TAIL, TAIL_BYTES);
      OnlySame(c, d, e, n, 0, e);
      SameNames(c, d, 0, e);
    }
  }

  // ----- The directory a block stands for -----

  predicate Distinct(es: seq<Entry>)
  {
    forall i, j :: 0 <= i < j < |es| ==> es[i].name != es[j].name
  }

  ghost predicate Bound(es: seq<Entry>, name: Name)
  {
    exists e :: e in es && e.name == name
  }

  /** The entries are those of the map from names to inodes, each once. */
  ghost predicate Represents(es: seq<Entry>, m: map<Name, nat>)
  {
    && Distinct(es)
    && (forall e :: e in es ==> e.name in m && m[e.name] == e.ino)
    && (forall x :: x in m ==> Bound(es, x))
  }

  lemma InsertedIn(was: seq<Entry>, now: seq<Entry>, k: nat, e: Entry)
    requires InsertedAt(was, now, k)
    ensures e in now <==> e in was || e == now[k]
  {
    if i: nat :| i < |now| && now[i] == e {
      assert k < i ==> now[i - 1 + 1] == was[i - 1];
    }
    if i: nat :| i < |was| && was[i] == e {
      assert now[if i < k then i else i + 1] == e;
    }
  }

  lemma InsertedDistinct(was: seq<Entry>, now: seq<Entry>, k: nat)
    requires InsertedAt(was, now, k)
    ensures Distinct(now) <==> Distinct(was) && forall e :: e in was ==> e.name != now[k].name
  {
    hide Distinct;
    if Distinct(now) {
      DistinctWithout(was, now, k);
    }
    if Distinct(was) && forall e :: e in was ==> e.name != now[k].name {
      DistinctWith(was, now, k);
    }
  }

  lemma DistinctWithout(was: seq<Entry>, now: seq<Entry>, k: nat)
    requires InsertedAt(was, now, k) && Distinct(now)
    ensures Distinct(was) && forall e :: e in was ==> e.name != now[k].name
  {
    forall i, j | 0 <= i < j < |was|
      ensures was[i].name != was[j].name
    {
      assert now[if i < k then i else i + 1] == was[i];
      assert now[if j < k then j else j + 1] == was[j];
    }
    forall i: nat | i < |was|
      ensures was[i].name != now[k].name
    {
      assert now[if i < k then i else i + 1] == was[i];
    }
  }

  lemma DistinctWith(was: seq<Entry>, now: seq<Entry>, k: nat)
    requires InsertedAt(was, now, k) && Distinct(was) && forall e :: e in was ==> e.name != now[k].name
    ensures Distinct(now)
  {
    forall i, j | 0 <= i < j < |now|
      ensures now[i].name != now[j].name
    {
      assert k < i ==> now[i - 1 + 1] == was[i - 1];
      assert k < j ==> now[j - 1 + 1] == was[j - 1];
      assert i < k ==> now[i] == was[i];
      assert j < k ==> now[j] == was[j];
    }
  }

  lemma AddedMeans(was: seq<Entry>, now: seq<Entry>, l: Link, m: map<Name, nat>)
    requires Represents(was, m) && Added(was, now, l) && l.name !in m
    ensures Represents(now, m[l.name := l.ino])
  {
    hide Distinct;
    var k: nat :| InsertedAt(was, now, k) && Describes(l, now[k]);
    InsertedDistinct(was, now, k);
    forall e
      ensures e in now <==> e in was || e == now[k]
    {
      InsertedIn(was, now, k, e);
    }
    forall x: Name
      ensures x in m[l.name := l.ino] ==> Bound(now, x)
    {
      if x == l.name {
        assert now[k] in now;
      } else if x in m {
        assert Bound(was, x);
      }
    }
  }

  lemma TakenMeans(was: seq<Entry>, now: seq<Entry>, name: Name, busy: nat -> bool, m: map<Name, nat>)
    requires Represents(was, m) && Taken(was, now, Named(name), busy)
    ensures name in m && !busy(m[name]) && Represents(now, m - {name})
  {
    hide Distinct, InsertedAt;
    var k: nat :| FirstAt(was, Named(name), k) && !busy(was[k].ino) && InsertedAt(now, was, k);
    assert was[k] in was;
    InsertedDistinct(now, was, k);
    forall e
      ensures e in was <==> e in now || e == was[k]
    {
      InsertedIn(now, was, k, e);
    }
    forall x | x in m - {name}
      ensures Bound(now, x)
    {
      assert Bound(was, x);
    }
  }

  lemma AnswersMean(es: seq<Entry>, m: map<Name, nat>, name: Name, a: Search)
    requires Represents(es, m) && Answers(es, name, a)
    ensures a == if name in m then Found(m[name]) else Absent
  {
    hide Distinct;
    if a.Found? {
      var k: nat :| FirstAt(es, Named(name), k) && es[k].ino == a.ino;
      assert es[k] in es;
    } else {
      MissingMeans(es, name, m);
    }
  }

  // ----- Runs -----

  /** An unlink carries the answer of the emptiness check at that time. */
  datatype Op = OpLink(l: Link) | OpUnlink(name: Name, busy: nat -> bool)

  function Exec(b: Mem, op: Op, csum: bool): (r: Pass)
    requires Sized(b) && (op.OpLink? ==> LinkOk(op.l))
    ensures |r.b| == |b|
  {
    match op
    case OpLink(l) => LinkPass(b, 0, l)
    case OpUnlink(name, busy) => UnlinkPass(b, 0, 0, Named(name), csum, busy)
  }

  /** What is on disk after a pass over block b: it is written back only if changed, and not if found corrupt. */
  function WrittenBack(b: Mem, r: Pass): Mem
  {
    if r.changed && r.verdict != Corrupt then r.b else b
  }

  lemma ExecChanged(b: Mem, op: Op, csum: bool)
    requires Sized(b) && (op.OpLink? ==> LinkOk(op.l))
    ensures var r := Exec(b, op, csum);
      && (r.b != b ==> r.changed) && (r.verdict == Linked || r.verdict == Removed ==> r.changed)
      && (op.OpUnlink? && r.changed ==> r.verdict == Removed)
  {
    hide LinkPass, UnlinkPass;
    match op
    case OpLink(l) => LinkChanged(b, 0, l);
    case OpUnlink(name, busy) => UnlinkChanged(b, 0, 0, Named(name), csum, busy);
  }

  /** What the caller of an operation provides: a well-formed request for a new name. */
  predicate Allowed(m: map<Name, nat>, op: Op, csum: bool)
  {
    op.OpLink? ==> LinkOk(op.l) && op.l.csum == csum && op.l.name !in m
  }

  function Effect(m: map<Name, nat>, op: Op, v: Verdict): map<Name, nat>
  {
    match op
    case OpLink(l) => if v == Linked then m[l.name := l.ino] else m
    case OpUnlink(name, _) => if v == Removed then m - {name} else m
  }

  /** The block holds the directory m in its records up to e. */
  ghost predicate Holds(b: Mem, e: nat, csum: bool, m: map<Name, nat>)
  {
    Ends(b, e, csum) && Reaches(b, 0, e) && Represents(Names(b, 0, e), m)
  }

  /** What the verdict of an operation says about the directory. */
  ghost predicate Told(b: Mem, e: nat, csum: bool, m: map<Name, nat>, op: Op, r: Pass)
  {
    match op
    case OpLink(l) =>
      r.verdict == Linked || (r.verdict == Full && Reaches(r.b, 0, e) && NoRoom(r.b, 0, e, Need(|l.name|), csum))
    case OpUnlink(name, busy) =>
      r.verdict == if name !in m then Missing else if busy(m[name]) then NotEmpty else Removed
  }

  /** One operation on a block that holds a directory. */
  lemma ExecHolds(b: Mem, e: nat, csum: bool, m: map<Name, nat>, op: Op)
    requires Holds(b, e, csum, m) && Allowed(m, op, csum)
    ensures var r := Exec(b, op, csum);
            && Holds(r.b, e, csum, Effect(m, op, r.verdict)) && Told(b, e, csum, m, op, r)
            && Only(b, r.b, 0, e) && WrittenBack(b, r) == r.b
            && (r.verdict == Linked || r.verdict == Removed ==> r.changed)
  {
    hide Ends, Reaches, Names, Represents, LinkPass, UnlinkPass, NoRoom, Added, Taken, Held, NoneWanted;
    BlockSized(b, e, csum);
    var r := Exec(b, op, csum);
    ExecChanged(b, op, csum);
    match op {
      case OpLink(l) =>
        LinkTiles(b, 0, e, l);
        EndsSame(b, r.b, 0, e, csum);
        if r.verdict == Linked {
          AddedMeans(Names(b, 0, e), Names(r.b, 0, e), l, m);
        }
      case OpUnlink(name, busy) =>
        UnlinkTiles(b, 0, 0, e, Named(name), csum, busy);
        EndsSame(b, r.b, 0, e, csum);
        if r.verdict == Removed {
          TakenMeans(Names(b, 0, e), Names(r.b, 0, e), name, busy, m);
        } else if r.verdict == Missing {
          MissingMeans(Names(b, 0, e), name, m);
        } else {
          HeldMeans(Names(b, 0, e), name, busy, m);
        }
    }
  }

  lemma BlockSized(b: Mem, e: nat, csum: bool)
    requires Ends(b, e, csum)
    ensures Sized(b)
  {
  }

  lemma MissingMeans(es: seq<Entry>, name: Name, m: map<Name, nat>)
    requires Represents(es, m) && NoneWanted(es, Named(name))
    ensures name !in m
  {
    hide Distinct;
    assert forall e :: e in es ==> !Wanted(Named(name), e);
    assert !Bound(es, name);
  }

  lemma HeldMeans(es: seq<Entry>, name: Name, busy: nat -> bool, m: map<Name, nat>)
    requires Represents(es, m) && Held(es, Named(name), busy)
    ensures name in m && busy(m[name])
  {
    hide Distinct;
    var k: nat :| FirstAt(es, Named(name), k) && busy(es[k].ino);
    assert es[k] in es;
  }

  /** The requests of a run fit the directory as it is at that time. */
  ghost predicate RunAllowed(b: Mem, m: map<Name, nat>, ops: seq<Op>, i: nat, csum: bool)
    requires Sized(b)
    decreases |ops| - i
  {
    i >= |ops| || (Allowed(m, ops[i], csum)
                   && var r := Exec(b, ops[i], csum);
                      RunAllowed(WrittenBack(b, r), Effect(m, ops[i], r.verdict), ops, i + 1, csum))
  }

  /** The block on disk and the directory after the operations from place i on. */
  ghost function Run(b: Mem, m: map<Name, nat>, ops: seq<Op>, i: nat, csum: bool): (r: (Mem, map<Name, nat>))
    requires Sized(b) && RunAllowed(b, m, ops, i, csum)
    decreases |ops| - i
  {
    if i >= |ops| then (b, m)
    else
      var r := Exec(b, ops[i], csum);
      Run(WrittenBack(b, r), Effect(m, ops[i], r.verdict), ops, i + 1, csum)
  }

  /**
   Over every run of links and unlinks the records tile the block, bytes behind
   them stay as they were, and lookup answers for every name what the directory says.
   */
  lemma {:induction false} RunHolds(b: Mem, e: nat, m: map<Name, nat>, ops: seq<Op>, i: nat, csum: bool)
    requires Holds(b, e, csum, m) && RunAllowed(b, m, ops, i, csum)
    ensures var r := Run(b, m, ops, i, csum);
            && Holds(r.0, e, csum, r.1) && Only(b, r.0, 0, e)
            && forall name :: LookupPass(r.0, 0, name) == if name in r.1 then Found(r.1[name]) else Absent
    decreases |ops| - i
  {
    hide Reaches, Names, Represents, Exec, Effect, LookupPass, Told, IsTail;
    if i >= |ops| {
      forall name
        ensures LookupPass(b, 0, name) == if name in m then Found(m[name]) else Absent
      {
        LookupFinds(b, 0, e, name, csum);
        AnswersMean(Names(b, 0, e), m, name, LookupPass(b, 0, name));
      }
    } else {
      ExecHolds(b, e, csum, m, ops[i]);
      var r := Exec(b, ops[i], csum);
      RunHolds(r.b, e, Effect(m, ops[i], r.verdict), ops, i + 1, csum);
    }
  }

  // ----- Runs that may link a name again -----

  /** The pairs of name and inode number, in order. */
  function Pairs(es: seq<Entry>): (r: seq<(Name, nat)>)
    ensures |r| == |es| && forall i :: 0 <= i < |es| ==> r[i] == (es[i].name, es[i].ino)
  {
    seq(|es|, i requires 0 <= i < |es| => (es[i].name, es[i].ino))
  }

  /** The block holds the pairs of the bag in its records up to e, a name possibly several times. */
  ghost predicate Stores(b: Mem, e: nat, csum: bool, bag: multiset<(Name, nat)>)
  {
    Ends(b, e, csum) && Reaches(b, 0, e) && multiset(Pairs(Names(b, 0, e))) == bag
  }

  lemma InsertedBag(was: seq<Entry>, now: seq<Entry>, k: nat)
    requires InsertedAt(was, now, k)
    ensures multiset(Pairs(now)) == multiset(Pairs(was)) + multiset{(now[k].name, now[k].ino)}
  {
    var p, q := Pairs(was), Pairs(now);
    InsertedMultiset(p[..k], p[k..], q[k]);
    assert p == p[..k] + p[k..];
    assert q == p[..k] + [q[k]] + p[k..];
  }

  lemma InsertedMultiset<T>(s: seq<T>, t: seq<T>, x: T)
    ensures multiset(s + [x] + t) == multiset(s + t) + multiset{x}
  {
  }

  predicate Proper(op: Op, csum: bool)
  {
    op.OpLink? ==> LinkOk(op.l) && op.l.csum == csum
  }

  predicate AllProper(ops: seq<Op>, csum: bool)
  {
    forall k :: 0 <= k < |ops| ==> Proper(ops[k], csum)
  }

  /** What an operation does to the bag: unlink takes the pair that a lookup of the name finds. */
  function BagEffect(b: Mem, bag: multiset<(Name, nat)>, op: Op, v: Verdict): multiset<(Name, nat)>
    requires Sized(b)
  {
    match op
    case OpLink(l) => if v == Linked then bag + multiset{(l.name, l.ino)} else bag
    case OpUnlink(name, _) =>
      var a := LookupPass(b, 0, name);
      if v == Removed && a.Found? then bag - multiset{(name, a.ino)} else bag
  }

  /** What the verdict of an operation says, in terms of a lookup before it. */
  ghost predicate BagTold(b: Mem, e: nat, csum: bool, op: Op, r: Pass)
    requires Sized(b)
  {
    match op
    case OpLink(l) =>
      r.verdict == Linked || (r.verdict == Full && Reaches(r.b, 0, e) && NoRoom(r.b, 0, e, Need(|l.name|), csum))
    case OpUnlink(name, busy) =>
      match LookupPass(b, 0, name)
      case Found(ino) => r.verdict == if busy(ino) then NotEmpty else Removed
      case Absent => r.verdict == Missing
      case Bad => false
  }

  lemma AddedBag(was: seq<Entry>, now: seq<Entry>, l: Link)
    requires Added(was, now, l)
    ensures multiset(Pairs(now)) == multiset(Pairs(was)) + multiset{(l.name, l.ino)}
  {
    hide Pairs;
    var k: nat :| InsertedAt(was, now, k) && Describes(l, now[k]);
    InsertedBag(was, now, k);
  }

  /** The entry that unlink finds first is the one that lookup finds. */
  lemma FirstIsFound(es: seq<Entry>, name: Name, a: Search, k: nat)
    requires Answers(es, name, a) && FirstAt(es, Named(name), k)
    ensures a == Found(es[k].ino)
  {
  }

  lemma TakenBag(was: seq<Entry>, now: seq<Entry>, name: Name, busy: nat -> bool, a: Search)
    requires Taken(was, now, Named(name), busy) && Answers(was, name, a)
    ensures a.Found? && !busy(a.ino) && multiset(Pairs(was)) == multiset(Pairs(now)) + multiset{(name, a.ino)}
  {
    hide InsertedAt, Pairs, Answers;
    var k: nat :| FirstAt(was, Named(name), k) && !busy(was[k].ino) && InsertedAt(now, was, k);
    FirstIsFound(was, name, a, k);
    InsertedBag(now, was, k);
  }

  lemma HeldFound(es: seq<Entry>, name: Name, busy: nat -> bool, a: Search)
    requires Held(es, Named(name), busy) && Answers(es, name, a)
    ensures a.Found? && busy(a.ino)
  {
    hide Answers;
    var k: nat :| FirstAt(es, Named(name), k) && busy(es[k].ino);
    FirstIsFound(es, name, a, k);
  }

  lemma MissingAbsent(es: seq<Entry>, name: Name, a: Search)
    requires NoneWanted(es, Named(name)) && Answers(es, name, a)
    ensures a == Absent
  {
  }

  /** One operation on a block, whether or not it links a name that is there already. */
  lemma ExecStores(b: Mem, e: nat, csum: bool, bag: multiset<(Name, nat)>, op: Op)
    requires Stores(b, e, csum, bag) && Proper(op, csum)
    ensures Sized(b)
    ensures var r := Exec(b, op, csum);
            && Stores(r.b, e, csum, BagEffect(b, bag, op, r.verdict)) && BagTold(b, e, csum, op, r)
            && Only(b, r.b, 0, e) && WrittenBack(b, r) == r.b
            && (r.verdict == Linked || r.verdict == Removed ==> r.changed)
  {
    hide Ends, Reaches, Names, Pairs, LinkPass, UnlinkPass, LookupPass, NoRoom, Added, Taken, Held, NoneWanted, Answers;
    BlockSized(b, e, csum);
    var r := Exec(b, op, csum);
    ExecChanged(b, op, csum);
    match op {
      case OpLink(l) =>
        LinkTiles(b, 0, e, l);
        EndsSame(b, r.b, 0, e, csum);
        if r.verdict == Linked {
          AddedBag(Names(b, 0, e), Names(r.b, 0, e), l);
        }
      case OpUnlink(name, busy) =>
        UnlinkTiles(b, 0, 0, e, Named(name), csum, busy);
        EndsSame(b, r.b, 0, e, csum);
        var es, a := Names(b, 0, e), LookupPass(b, 0, name);
        LookupFinds(b, 0, e, name, csum);
        if r.verdict == Removed {
          TakenBag(es, Names(r.b, 0, e), name, busy, a);
        } else if r.verdict == Missing {
          MissingAbsent(es, name, a);
        } else {
          HeldFound(es, name, busy, a);
        }
    }
  }

  /** The block on disk and the bag after the operations from place i on. */
  ghost function BagRun(b: Mem, bag: multiset<(Name, nat)>, ops: seq<Op>, i: nat, csum: bool):
    (r: (Mem, multiset<(Name, nat)>))
    requires Sized(b) && AllProper(ops, csum)
    ensures Sized(r.0)
    decreases |ops| - i
  {
    if i >= |ops| then (b, bag)
    else
      assert Proper(ops[i], csum);
      var r := Exec(b, ops[i], csum);
      BagRun(WrittenBack(b, r), BagEffect(b, bag, ops[i], r.verdict), ops, i + 1, csum)
  }

  /** A lookup finds a pair of the bag, or there is none of that name. */
  ghost predicate FindsIn(bag: multiset<(Name, nat)>, name: Name, a: Search)
  {
    match a
    case Found(ino) => (name, ino) in bag
    case Absent => forall ino :: (name, ino) !in bag
    case Bad => false
  }

  lemma AnswersBag(es: seq<Entry>, name: Name, a: Search)
    requires Answers(es, name, a)
    ensures FindsIn(multiset(Pairs(es)), name, a)
  {
    if a.Found? {
      var k: nat :| FirstAt(es, Named(name), k) && es[k].ino == a.ino;
      assert Pairs(es)[k] in Pairs(es);
    }
  }

  /**
   Over every run of links and unlinks, of names that are there already or not,
   the records tile the block, bytes behind them stay as they were, no pair is
   lost or made up, and lookup finds a pair of every name that has one.
   */
  lemma {:induction false} RunStores(b: Mem, e: nat, bag: multiset<(Name, nat)>, ops: seq<Op>, i: nat, csum: bool)
    requires Stores(b, e, csum, bag) && AllProper(ops, csum)
    ensures Sized(b)
    ensures var r := BagRun(b, bag, ops, i, csum);
            && Stores(r.0, e, csum, r.1) && Only(b, r.0, 0, e)
            && forall name :: FindsIn(r.1, name, LookupPass(r.0, 0, name))
    decreases |ops| - i
  {
    hide Reaches, Names, Pairs, Exec, BagEffect, LookupPass, BagTold, IsTail, FindsIn, Answers;
    BlockSized(b, e, csum);
    if i >= |ops| {
      forall name
        ensures FindsIn(bag, name, LookupPass(b, 0, name))
      {
        LookupFinds(b, 0, e, name, csum);
        AnswersBag(Names(b, 0, e), name, LookupPass(b, 0, name));
      }
    } else {
      assert Proper(ops[i], csum);
      ExecStores(b, e, csum, bag, ops[i]);
      var r := Exec(b, ops[i], csum);
      RunStores(r.b, e, BagEffect(b, bag, ops[i], r.verdict), ops, i + 1, csum);
    }
  }

  /** A new directory holds "." and ".." and nothing else. */
  lemma NewDirBlockHolds(n: nat, ino: nat, parent: nat, typed: bool, csum: bool)
    requires Sized(Zeros(n)) && 0 < ino < WORD_LIMIT && 0 < parent < WORD_LIMIT
    ensures Holds(NewDirBlock(n, ino, parent, typed, csum), n - CsumSize(csum), csum,
                  map[[46] := ino, [46, 46] := parent])
  {
    hide Names, Reaches, NewDirBlock, Zeros, Ends;
    NewDirBlockTiles(n, ino, parent, typed, csum);
    TwoRepresent(Names(NewDirBlock(n, ino, parent, typed, csum), 0, n - CsumSize(csum)), ino, parent);
  }

  lemma TwoRepresent(es: seq<Entry>, ino: nat, parent: nat)
    requires |es| == 2 && es[0].name == [46] && es[1].name == [46, 46] && es[0].ino == ino && es[1].ino == parent
    ensures Represents(es, map[[46] := ino, [46, 46] := parent])
  {
    var m: map<Name, nat> := map[[46] := ino, [46, 46] := parent];
    assert |es[0].name| != |es[1].name|;
    forall x: Name
      ensures x in m ==> Bound(es, x)
    {
      assert es[0] in es && es[1] in es;
    }
  }

  // ----- The block buffer updated in place -----

  method GetIno(buf: array<byte>, o: nat) returns (ino: nat)
    requires o + HEAD <= buf.Length
    ensures ino == Ino(buf[..], o)
  {
    ino := buf[o] as nat + 256 * (buf[o + 1] as nat + 256 * (buf[o + 2] as nat + 256 * (buf[o + 3] as nat)));
  }

  /** ext2_get_rec_len */
  method GetLen(buf: array<byte>, o: nat) returns (raw: nat, len: nat)
    requires o + HEAD <= buf.Length
    ensures raw == Raw(buf[..], o) && len == Len(buf[..], o)
  {
    raw := buf[o + 4] as nat + 256 * (buf[o + 5] as nat);
    if buf.Length < 65536 {
      len := raw;
    } else if raw == 65535 || raw == 0 {
      len := buf.Length;
    } else {
      len := raw - raw % 4 + 65536 * (raw % 4);
    }
  }

  /** ext2_set_rec_len: refuses lengths over the block size or not a multiple of four. */
  method StoreLen(buf: array<byte>, o: nat, len: nat) returns (ok: bool)
    requires Sized(buf[..]) && o + HEAD <= buf.Length
    modifies buf
    ensures ok <==> len <= buf.Length && len % 4 == 0
    ensures buf[..] == if ok then SetLen(old(buf[..]), o, len) else old(buf[..])
  {
    if len > buf.Length || len % 4 != 0 {
      return false;
    }
    PutBytes(buf, o + 4, HalfBytes(Encoded(len)));
    return true;
  }

  /** Take the next record over when it is free and lies before the tail. */
  method AbsorbNext(buf: array<byte>, o: nat, csum: bool) returns (len: nat, changed: bool, ok: bool)
    requires Sized(buf[..]) && Legal(buf[..], o, buf.Length)
    modifies buf
    ensures len == AbsorbedLen(old(buf[..]), o, csum) && changed == Absorbs(old(buf[..]), o, csum)
    ensures ok <==> len % 4 == 0
    ensures buf[..] == if ok then Absorbed(old(buf[..]), o, csum) else old(buf[..])
  {
    hide Ino, Len, Raw, SetLen, NameLen;
    ghost var b := buf[..];
    var _, cur := GetLen(buf, o);
    len, changed, ok := cur, false, true;
    var next := o + cur;
    if next + CsumSize(csum) + HEAD < buf.Length {
      var ino := GetIno(buf, next);
      var raw, _ := GetLen(buf, next);
      if ino == 0 && next + raw <= buf.Length {
        len, changed := cur + raw, true;
        ok := StoreLen(buf, o, len);
      }
    }
  }

  /** Cut the record at o to size; the rest becomes a free record. */
  method SplitRecord(buf: array<byte>, o: nat, len: nat, min: nat)
    requires Sized(buf[..]) && Legal(buf[..], o, buf.Length) && len == Len(buf[..], o)
    requires min == Need(NameLen(buf[..], o)) && min + HEAD <= len
    modifies buf
    ensures buf[..] == Split(old(buf[..]), o)
  {
    hide Len, Raw, SetLen, NameLen, Put, Legal;
    ghost var b := buf[..];
    assert o + len <= buf.Length && min % 4 == 0 && len % 4 == 0 by { SplitRoom(b, o); }
    var ok := StoreLen(buf, o, min);
    var next := o + min;
    PutBytes(buf, next, WordBytes(0));
    PutBytes(buf, next + 6, HalfBytes(0));
    ok := StoreLen(buf, next, len - min);
  }

  lemma SplitRoom(b: Mem, o: nat)
    requires Legal(b, o, |b|)
    ensures o + Len(b, o) <= |b| && Len(b, o) % 4 == 0 && Need(NameLen(b, o)) % 4 == 0
  {
    NeedBounds(NameLen(b, o));
  }

  /** Fill the free record at o in. */
  method ClaimRecord(buf: array<byte>, o: nat, l: Link)
    requires LinkOk(l) && o + HEAD + |l.name| <= buf.Length
    modifies buf
    ensures buf[..] == Claim(old(buf[..]), o, l)
  {
    PutBytes(buf, o, WordBytes(l.ino));
    PutBytes(buf, o + 6, [|l.name|]);
    PutBytes(buf, o + HEAD, l.name);
    if l.typed {
      PutBytes(buf, o + 7, [l.kind]);
    }
  }

  /** ext2_process_link on the record at o. */
  method ProcessLink(buf: array<byte>, o: nat, l: Link) returns (changed: bool, done: bool, ok: bool)
    requires Sized(buf[..]) && LinkOk(l) && Legal(buf[..], o, buf.Length)
    modifies buf
    ensures LinkStep(old(buf[..]), o, l) ==
            if !ok then Fail(buf[..]) else if done then Stop(buf[..]) else Go(buf[..], changed)
    ensures (done ==> changed) && (!ok ==> !changed)
  {
    hide Ino, Len, Raw, SetLen, NameLen, Absorbs, Absorbed, AbsorbedLen, Claim, Split, Need, EntryAt, Put;
    ghost var b := buf[..];
    done := false;
    var len;
    len, changed, ok := AbsorbNext(buf, o, l.csum);
    if !ok {
      changed := false;
      return;
    }
    AbsorbedLegal(b, o, l.csum);
    NeedBounds(NameLen(b, o));
    NeedBounds(|l.name|);
    var ino := GetIno(buf, o);
    var need := Need(|l.name|);
    var min := Need(buf[o + 6]);
    assert min == Need(NameLen(buf[..], o)) by { NameLenAt(buf, o); }
    if ino != 0 {
      if len < min + need {
        return;
      }
      SplitRecord(buf, o, len, min);
      changed := true;
    } else if need <= len {
      ClaimRecord(buf, o, l);
      changed, done := true, true;
    }
  }

  lemma NameLenAt(buf: array<byte>, o: nat)
    requires o + HEAD <= buf.Length
    ensures NameLen(buf[..], o) == buf[o + 6]
  {
  }

  /** The checks ext2_process_dir_block makes on each record. */
  method CheckRecord(buf: array<byte>, o: nat) returns (len: nat, legal: bool)
    requires o + HEAD < buf.Length
    ensures len == Len(buf[..], o) && (legal <==> Legal(buf[..], o, buf.Length))
  {
    var raw;
    raw, len := GetLen(buf, o);
    legal := !(o + len > buf.Length || len < HEAD || len % 4 != 0 || buf[o + 6] + HEAD > len);
  }

  method CheckTail(buf: array<byte>, o: nat, csum: bool) returns (tail: bool)
    requires o + HEAD <= buf.Length
    ensures tail <==> IsTail(buf[..], o, csum)
  {
    hide Ino, Raw, Len;
    var ino := GetIno(buf, o);
    var raw, _ := GetLen(buf, o);
    tail := csum && o + TAIL == buf.Length && ino == 0 && raw == TAIL && buf[o + 6] == 0 &&
            buf[o + 7] == NAME_LEN_CHECKSUM;
  }

  /** ext2_process_dir_block with the link callback. */
  method LinkBlock(buf: array<byte>, l: Link) returns (verdict: Verdict, changed: bool)
    requires Sized(buf[..]) && LinkOk(l)
    modifies buf
    ensures Pass(buf[..], verdict, changed) == LinkPass(old(buf[..]), 0, l)
  {
    hide Ino, Len, Raw, NameLen, LinkStep, IsTail;
    ghost var b := buf[..];
    var o := 0;
    changed := false;
    while o + HEAD < buf.Length
      invariant buf.Length == |b|
      invariant Marked(LinkPass(buf[..], o, l), changed) == LinkPass(b, 0, l)
      decreases buf.Length - o
    {
      var len, legal := CheckRecord(buf, o);
      if !legal {
        return Corrupt, changed;
      }
      var tail := CheckTail(buf, o, l.csum);
      if !tail {
        ghost var was := buf[..];
        var touched, done, ok := ProcessLink(buf, o, l);
        changed := changed || touched;
        if !ok {
          return Invalid, changed;
        }
        if done {
          return Linked, changed;
        }
        var _, again := GetLen(buf, o);
        len := again;
      }
      o := o + len;
    }
    verdict := Full;
  }

  function Marked(r: Pass, changed: bool): Pass
  {
    r.(changed := changed || r.changed)
  }

  /** strncmp over the name of the record at o. */
  method SameName(buf: array<byte>, o: nat, name: Name) returns (same: bool)
    requires Legal(buf[..], o, buf.Length)
    ensures same <==> EntryAt(buf[..], o).name == name
  {
    hide Len, Ino;
    ghost var n := Part(buf[..], o + HEAD, NameLen(buf[..], o));
    if buf[o + 6] != |name| {
      return false;
    }
    for i := 0 to |name|
      invariant forall j :: 0 <= j < i ==> n[j] == name[j]
    {
      if buf[o + HEAD + i] != name[i] {
        assert n[i] != name[i];
        return false;
      }
    }
    assert n == name;
    return true;
  }

  /** ext2_process_dir_block with the unlink callback. */
  method UnlinkBlock(buf: array<byte>, w: Want, csum: bool, busy: nat -> bool) returns (verdict: Verdict, changed: bool)
    requires Sized(buf[..])
    modifies buf
    ensures Pass(buf[..], verdict, changed) == UnlinkPass(old(buf[..]), 0, 0, w, csum, busy)
  {
    hide Ino, Len, Raw, NameLen, IsTail, EntryAt, Put;
    ghost var b := buf[..];
    var prev: nat, o: nat := 0, 0;
    changed := false;
    while o + HEAD < buf.Length
      invariant buf[..] == b && prev + HEAD <= buf.Length
      invariant UnlinkPass(b, prev, o, w, csum, busy) == UnlinkPass(b, 0, 0, w, csum, busy)
      decreases buf.Length - o
    {
      var len, legal := CheckRecord(buf, o);
      if !legal {
        return Corrupt, false;
      }
      var tail := CheckTail(buf, o, csum);
      if !tail {
        var ino := GetIno(buf, o);
        var same := true;
        if w.Named? {
          same := SameName(buf, o, w.name);
        }
        if same && ino != 0 {
          if busy(ino) {
            return NotEmpty, false;
          }
          DropRecord(buf, prev, o);
          return Removed, true;
        }
        prev := o;
      }
      o := o + len;
    }
    verdict := Missing;
  }

  method DropRecord(buf: array<byte>, prev: nat, o: nat)
    requires o + HEAD <= buf.Length && prev + HEAD <= buf.Length
    modifies buf
    ensures buf[..] == Dropped(old(buf[..]), prev, o)
  {
    hide Raw, HalfBytes, Put;
    if o != 0 {
      var mine, _ := GetLen(buf, prev);
      var raw, _ := GetLen(buf, o);
      PutBytes(buf, prev + 4, HalfBytes((mine + raw) % 65536));
    } else {
      PutBytes(buf, o, WordBytes(0));
    }
  }

  /** ext2_process_dir_block with the lookup callback: free records are skipped. */
  method LookupBlock(buf: array<byte>, name: Name) returns (r: Search)
    requires Sized(buf[..])
    ensures r == LookupPass(buf[..], 0, name)
  {
    hide Ino, Len, Raw, NameLen, EntryAt;
    var o := 0;
    while o + HEAD < buf.Length
      invariant LookupPass(buf[..], o, name) == LookupPass(buf[..], 0, name)
      decreases buf.Length - o
    {
      var len, legal := CheckRecord(buf, o);
      if !legal {
        return Bad;
      }
      var ino := GetIno(buf, o);
      if ino != 0 {
        var same := SameName(buf, o, name);
        if same {
          return Found(ino);
        }
      }
      o := o + len;
    }
    r := Absent;
  }
}
