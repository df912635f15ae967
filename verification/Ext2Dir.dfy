/** Directory blocks of ext2: variable-length records that tile a block. */
module Ext2Dir {
  import opened Bytes
  import opened Memory

  const HEAD: nat := 8
  const TAIL: nat := 12
  const NAME_LEN_CHECKSUM: nat := 0xde

  type Name = seq<byte>

  /** A record in use. */
  datatype Entry = Entry(ino: nat, kind: byte, name: Name)

  predicate Sized(b: Mem)
  {
    1024 <= |b| <= 65536 && |b| % 4 == 0
  }

  // ----- Record headers -----

  function Ino(b: Mem, o: nat): nat
    requires o + HEAD <= |b|
  {
    WordAt(b, o)
  }

  function Raw(b: Mem, o: nat): (r: nat)
    requires o + HEAD <= |b|
    ensures r < 65536
  {
    b[o + 4] as nat + 256 * (b[o + 5] as nat)
  }

  /** A record length as stored in 16 bits; a block of 64 KiB needs an escape. */
  function Decoded(n: nat, raw: nat): nat
  {
    if n < 65536 then raw
    else if raw == 65535 || raw == 0 then n
    else raw - raw % 4 + 65536 * (raw % 4)
  }

  function Encoded(len: nat): (r: nat)
    requires len <= 65536
    ensures r < 65536
  {
    if len < 65536 then len else 65535
  }

  lemma LengthRoundTrip(n: nat, len: nat)
    requires n <= 65536 && 0 < len <= n && len % 4 == 0
    ensures Decoded(n, Encoded(len)) == len
    ensures Encoded(len) == if len == 0x1_0000 then 0xffff else len
  {
  }

  function Len(b: Mem, o: nat): nat
    requires o + HEAD <= |b|
  {
    Decoded(|b|, Raw(b, o))
  }

  function NameLen(b: Mem, o: nat): nat
    requires o + HEAD <= |b|
  {
    b[o + 6]
  }

  /** The bytes a record needs for a name. */
  function Need(n: nat): nat
  {
    (n + HEAD + 3) / 4 * 4
  }

  lemma NeedBounds(n: nat)
    ensures n + HEAD <= Need(n) < n + HEAD + 4 && Need(n) % 4 == 0
  {
  }

  /** What a record must satisfy to be accepted in a block that ends at e. */
  predicate Legal(b: Mem, o: nat, e: nat)
  {
    && o + HEAD <= e <= |b|
    && HEAD <= Len(b, o) && Len(b, o) % 4 == 0 && o + Len(b, o) <= e
    && NameLen(b, o) + HEAD <= Len(b, o)
  }

  function EntryAt(b: Mem, o: nat): Entry
    requires o + HEAD <= |b| && o + HEAD + NameLen(b, o) <= |b|
  {
    Entry(Ino(b, o), b[o + 7], Part(b, o + HEAD, NameLen(b, o)))
  }

  // ----- Tilings -----

  /** Stepping by record lengths leads from s to e through legal records. */
  predicate Reaches(b: Mem, s: nat, e: nat)
    decreases e - s
  {
    s == e || (Legal(b, s, e) && Reaches(b, s + Len(b, s), e))
  }

  /**
   The entries between s and e that a walk over the block sees. The walk stops
   eight bytes before the end of the block, where no name fits.
   */
  function Names(b: Mem, s: nat, e: nat): seq<Entry>
    requires Reaches(b, s, e)
    decreases e - s
  {
    if s == e || s + HEAD >= |b| then []
    else
      var rest := Names(b, s + Len(b, s), e);
      if Ino(b, s) == 0 then rest else [EntryAt(b, s)] + rest
  }

  predicate IsTail(b: Mem, o: nat, csum: bool)
    requires o + HEAD <= |b|
  {
    csum && o + TAIL == |b| && Ino(b, o) == 0 && Raw(b, o) == TAIL
    && NameLen(b, o) == 0 && b[o + 7] == NAME_LEN_CHECKSUM
  }

  /** The records end at e: at the checksum tail, or at the end of the block. */
  predicate Ends(b: Mem, e: nat, csum: bool)
  {
    Sized(b) && (e == |b| || (csum && e + TAIL == |b| && IsTail(b, e, csum)))
  }

  function CsumSize(csum: bool): nat
  {
    if csum then TAIL else 0
  }

  lemma ReachesLegal(b: Mem, s: nat, e: nat)
    requires Reaches(b, s, e) && s != e
    ensures Legal(b, s, e)
  {
  }

  lemma ReachesStep(b: Mem, s: nat, e: nat)
    requires Legal(b, s, e)
    ensures s < s + Len(b, s) <= e
    ensures Reaches(b, s, e) <==> Reaches(b, s + Len(b, s), e)
  {
  }

  lemma NamesStep(b: Mem, s: nat, e: nat)
    requires Legal(b, s, e) && Reaches(b, s + Len(b, s), e) && s + HEAD < |b|
    ensures Reaches(b, s, e)
    ensures Names(b, s, e) ==
            (if Ino(b, s) == 0 then [] else [EntryAt(b, s)]) + Names(b, s + Len(b, s), e)
  {
  }

  lemma NamesEnd(b: Mem, s: nat, e: nat)
    requires Reaches(b, s, e) && (s == e || s + HEAD >= |b|)
    ensures Names(b, s, e) == []
  {
  }

  // ----- Framing -----

  lemma SameHead(b: Mem, c: Mem, o: nat)
    requires o + HEAD <= |b| && Same(b, c, o, o + HEAD)
    ensures Ino(c, o) == Ino(b, o) && Raw(c, o) == Raw(b, o) && Len(c, o) == Len(b, o)
    ensures NameLen(c, o) == NameLen(b, o) && c[o + 7] == b[o + 7]
  {
    hide WordAt, Decoded;
    SameWordAt(b, c, o);
  }

  /** A record depends on its own bytes only. */
  lemma SameRecord(b: Mem, c: Mem, o: nat, e: nat)
    requires Legal(b, o, e) && Same(b, c, o, o + Len(b, o))
    ensures Legal(c, o, e) && Len(c, o) == Len(b, o) && NameLen(c, o) == NameLen(b, o) && Ino(c, o) == Ino(b, o)
    ensures EntryAt(c, o) == EntryAt(b, o)
  {
    hide Ino, Raw, Len;
    SameHead(b, c, o);
    assert Part(c, o + HEAD, NameLen(c, o)) == Part(b, o + HEAD, NameLen(b, o));
  }

  lemma {:induction false} SameNames(b: Mem, c: Mem, s: nat, e: nat)
    requires Reaches(b, s, e) && Same(b, c, s, e)
    ensures Reaches(c, s, e) && Names(c, s, e) == Names(b, s, e)
    decreases e - s
  {
    hide Ino, Len, NameLen, EntryAt;
    if s != e {
      SameRecord(b, c, s, e);
      SameNames(b, c, s + Len(b, s), e);
    }
  }

  // ----- Writing headers -----

  function HalfBytes(v: nat): (r: seq<byte>)
    requires v < 65536
    ensures |r| == 2
  {
    [v % 256, v / 256]
  }

  function SetLen(b: Mem, o: nat, len: nat): (c: Mem)
    requires o + HEAD <= |b| && len <= 65536
    ensures |c| == |b|
  {
    Put(b, o + 4, HalfBytes(Encoded(len)))
  }

  lemma SetLenRaw(b: Mem, o: nat, v: nat)
    requires o + HEAD <= |b| && v < 65536
    ensures Raw(Put(b, o + 4, HalfBytes(v)), o) == v
    ensures Only(b, Put(b, o + 4, HalfBytes(v)), o + 4, o + 6)
  {
  }

  /** Storing a legal length gives it back and touches nothing else. */
  lemma SetLenStores(b: Mem, o: nat, len: nat)
    requires o + HEAD <= |b| <= 65536 && 0 < len <= |b| && len % 4 == 0
    ensures var c := SetLen(b, o, len);
            && Len(c, o) == len && Only(b, c, o + 4, o + 6)
            && Ino(c, o) == Ino(b, o) && NameLen(c, o) == NameLen(b, o) && c[o + 7] == b[o + 7]
  {
    hide Raw, Encoded, Decoded, HalfBytes, WordAt;
    var c := SetLen(b, o, len);
    SetLenRaw(b, o, Encoded(len));
    LengthRoundTrip(|b|, len);
    OnlySame(b, c, o + 4, o + 6, o, o + 4);
    SameWordAt(b, c, o);
  }

  /** Growing or shrinking a record in place keeps its entry. */
  lemma Resized(b: Mem, o: nat, e: nat, len: nat)
    requires Legal(b, o, e) && |b| <= 65536
    requires HEAD + NameLen(b, o) <= len && len % 4 == 0 && o + len <= e
    ensures var c := SetLen(b, o, len);
            && Legal(c, o, e) && Len(c, o) == len && Only(b, c, o + 4, o + 6)
            && Ino(c, o) == Ino(b, o) && NameLen(c, o) == NameLen(b, o) && EntryAt(c, o) == EntryAt(b, o)
  {
    hide Raw, Len, SetLen, Ino;
    SetLenStores(b, o, len);
    var c := SetLen(b, o, len);
    assert Part(c, o + HEAD, NameLen(c, o)) == Part(b, o + HEAD, NameLen(b, o));
  }

  // ----- Link -----

  /** The request: the feature bits decide the checksum tail and the type byte. */
  datatype Link = Link(name: Name, ino: nat, kind: byte, typed: bool, csum: bool)

  predicate LinkOk(l: Link)
  {
    |l.name| <= 255 && 0 < l.ino < WORD_LIMIT && l.kind < 8
  }

  /** The next record is free and may be taken over. */
  predicate Absorbs(b: Mem, o: nat, csum: bool)
    requires Legal(b, o, |b|)
  {
    var next := o + Len(b, o);
    next + CsumSize(csum) + HEAD < |b| && Ino(b, next) == 0 && next + Raw(b, next) <= |b|
  }

  function AbsorbedLen(b: Mem, o: nat, csum: bool): (r: nat)
    requires Legal(b, o, |b|)
    ensures o + r <= |b|
  {
    if Absorbs(b, o, csum) then Len(b, o) + Raw(b, o + Len(b, o)) else Len(b, o)
  }

  function Absorbed(b: Mem, o: nat, csum: bool): (c: Mem)
    requires Sized(b) && Legal(b, o, |b|)
    ensures |c| == |b|
  {
    if Absorbs(b, o, csum) then SetLen(b, o, AbsorbedLen(b, o, csum)) else b
  }

  /** Cut a record to the room its name needs; the rest becomes a free record. */
  function Split(b: Mem, o: nat): (c: Mem)
    requires Sized(b) && Legal(b, o, |b|) && Need(NameLen(b, o)) + HEAD <= Len(b, o)
    ensures |c| == |b|
  {
    var min := Need(NameLen(b, o));
    var rest := Len(b, o) - min;
    var next := o + min;
    SetLen(Put(Put(SetLen(b, o, min), next, WordBytes(0)), next + 6, HalfBytes(0)), next, rest)
  }

  /** Fill a free record in. */
  function Claim(b: Mem, o: nat, l: Link): (c: Mem)
    requires LinkOk(l) && o + HEAD + |l.name| <= |b|
    ensures |c| == |b|
  {
    var named := Put(Put(Put(b, o, WordBytes(l.ino)), o + 6, [|l.name|]), o + HEAD, l.name);
    if l.typed then Put(named, o + 7, [l.kind]) else named
  }

  datatype Callback = Go(b: Mem, changed: bool) | Stop(b: Mem) | Fail(b: Mem)

  function LinkStep(b: Mem, o: nat, l: Link): (r: Callback)
    requires Sized(b) && LinkOk(l) && Legal(b, o, |b|)
    ensures |r.b| == |b|
    ensures r.Go? ==> Legal(r.b, o, |b|)
  {
    var len := AbsorbedLen(b, o, l.csum);
    if len % 4 != 0 then Fail(b)
    else
      AbsorbedLegal(b, o, l.csum);
      NeedBounds(NameLen(b, o));
      NeedBounds(|l.name|);
      var c := Absorbed(b, o, l.csum);
      var changed := Absorbs(b, o, l.csum);
      if Ino(b, o) != 0 then
        if len < Need(NameLen(b, o)) + Need(|l.name|) then Go(c, changed)
        else SplitKeeps(c, o, |b|); Go(Split(c, o), true)
      else if len < Need(|l.name|) then Go(c, changed)
      else Stop(Claim(c, o, l))
  }

  lemma AbsorbedLegal(b: Mem, o: nat, csum: bool)
    requires Sized(b) && Legal(b, o, |b|) && AbsorbedLen(b, o, csum) % 4 == 0
    ensures var c := Absorbed(b, o, csum);
            && Legal(c, o, |b|) && Len(c, o) == AbsorbedLen(b, o, csum) && Only(b, c, o + 4, o + 6)
            && Ino(c, o) == Ino(b, o) && NameLen(c, o) == NameLen(b, o) && EntryAt(c, o) == EntryAt(b, o)
  {
    hide Raw, Len, SetLen, Ino, EntryAt;
    if Absorbs(b, o, csum) {
      Resized(b, o, |b|, AbsorbedLen(b, o, csum));
    }
  }

  lemma SplitKeeps(b: Mem, o: nat, e: nat)
    requires Sized(b) && Legal(b, o, e) && Need(NameLen(b, o)) + HEAD <= Len(b, o)
    ensures var c := Split(b, o);
            var next := o + Need(NameLen(b, o));
            && Legal(c, o, e) && Len(c, o) == Need(NameLen(b, o)) && Only(b, c, o, o + Len(b, o))
            && Ino(c, o) == Ino(b, o) && NameLen(c, o) == NameLen(b, o) && EntryAt(c, o) == EntryAt(b, o)
            && Legal(c, next, e) && Ino(c, next) == 0 && NameLen(c, next) == 0
            && next + Len(c, next) == o + Len(b, o)
  {
    hide Raw, Len, SetLen, Ino, EntryAt, Put, Need, HalfBytes;
    NeedBounds(NameLen(b, o));
    var min := Need(NameLen(b, o));
    var rest := Len(b, o) - min;
    var next := o + min;
    Resized(b, o, e, min);
    var b1 := SetLen(b, o, min);
    var b2 := Put(b1, next, WordBytes(0));
    FreeInode(b1, next);
    var b3 := Put(b2, next + 6, HalfBytes(0));
    NoName(b2, next);
    var b4 := SetLen(b3, next, rest);
    SetLenStores(b3, next, rest);
    SameRecord(b1, b4, o, e);
  }

  lemma FreeInode(b: Mem, o: nat)
    requires o + HEAD <= |b|
    ensures var c := Put(b, o, WordBytes(0)); Ino(c, o) == 0 && Only(b, c, o, o + 4)
  {
    hide WordAt;
    PutWord(b, o, 0);
  }

  lemma NoName(b: Mem, o: nat)
    requires o + HEAD <= |b|
    ensures var c := Put(b, o + 6, HalfBytes(0));
            NameLen(c, o) == 0 && Ino(c, o) == Ino(b, o) && Only(b, c, o + 6, o + 8)
  {
    hide WordAt;
    var c := Put(b, o + 6, HalfBytes(0));
    SameWordAt(b, c, o);
  }

  datatype Verdict = Linked | Full | Removed | Missing | NotEmpty | Invalid | Corrupt

  datatype Pass = Pass(b: Mem, verdict: Verdict, changed: bool)

  /** The walk over the block from offset o, handing each record to the link callback. */
  function LinkPass(b: Mem, o: nat, l: Link): (r: Pass)
    requires Sized(b) && LinkOk(l)
    ensures |r.b| == |b|
    decreases |b| - o
  {
    if o + HEAD >= |b| then Pass(b, Full, false)
    else if !Legal(b, o, |b|) then Pass(b, Corrupt, false)
    else if IsTail(b, o, l.csum) then LinkPass(b, o + Len(b, o), l)
    else
      match LinkStep(b, o, l)
      case Go(c, changed) => var r := LinkPass(c, o + Len(c, o), l); r.(changed := changed || r.changed)
      case Stop(c) => Pass(c, Linked, true)
      case Fail(c) => Pass(c, Invalid, false)
  }

  lemma StepChanged(b: Mem, o: nat, l: Link)
    requires Sized(b) && LinkOk(l) && Legal(b, o, |b|)
    ensures match LinkStep(b, o, l)
            case Go(c, changed) => c != b ==> changed
            case Stop(_) => true
            case Fail(c) => c == b
  {
    hide Raw, Len, SetLen, Ino, EntryAt, Put, Need, NameLen, Split, Claim, Legal;
  }

  /** A link pass that alters the block says so. */
  lemma {:induction false} LinkChanged(b: Mem, o: nat, l: Link)
    requires Sized(b) && LinkOk(l)
    ensures LinkPass(b, o, l).b != b || LinkPass(b, o, l).verdict == Linked ==> LinkPass(b, o, l).changed
    ensures LinkPass(b, o, l).verdict != Removed
    decreases |b| - o
  {
    hide Raw, Ino, NameLen, IsTail, LinkStep;
    if o + HEAD < |b| && Legal(b, o, |b|) {
      if IsTail(b, o, l.csum) {
        LinkChanged(b, o + Len(b, o), l);
      } else {
        StepChanged(b, o, l);
        match LinkStep(b, o, l)
        case Go(c, changed) => LinkChanged(c, o + Len(c, o), l);
        case Stop(_) =>
        case Fail(_) =>
      }
    }
  }

  /** The entry a link leaves; without the type feature the old type byte stays. */
  predicate Describes(l: Link, e: Entry)
  {
    e.ino == l.ino && e.name == l.name && (l.typed ==> e.kind == l.kind)
  }

  /** One more entry, at place k; the others keep their order. */
  predicate InsertedAt(was: seq<Entry>, now: seq<Entry>, k: nat)
  {
    && k <= |was| && |now| == |was| + 1
    && (forall i :: 0 <= i < k ==> now[i] == was[i])
    && (forall i :: k <= i < |was| ==> now[i + 1] == was[i])
  }

  ghost predicate Added(was: seq<Entry>, now: seq<Entry>, l: Link)
  {
    exists k: nat :: InsertedAt(was, now, k) && Describes(l, now[k])
  }

  lemma AddedAfter(head: seq<Entry>, was: seq<Entry>, now: seq<Entry>, l: Link)
    requires Added(was, now, l)
    ensures Added(head + was, head + now, l)
  {
    var k: nat :| InsertedAt(was, now, k) && Describes(l, now[k]);
    assert InsertedAt(head + was, head + now, |head| + k);
  }

  /** The record at o has no room for a name of that need. */
  predicate Tight(b: Mem, o: nat, need: nat)
    requires o + HEAD <= |b|
  {
    Len(b, o) < need + (if Ino(b, o) == 0 then 0 else Need(NameLen(b, o)))
  }

  /** No record that the walk from s to e visits has room. */
  predicate NoRoom(b: Mem, s: nat, e: nat, need: nat, csum: bool)
    requires Reaches(b, s, e)
    decreases e - s
  {
    s == e || s + HEAD >= |b| || ((IsTail(b, s, csum) || Tight(b, s, need)) && NoRoom(b, s + Len(b, s), e, need, csum))
  }

  /** In a tiled block the length of the next record is stored as it is. */
  lemma RawIsLen(b: Mem, o: nat, e: nat)
    requires Sized(b) && Legal(b, o, e) && Len(b, o) < |b|
    ensures Raw(b, o) == Len(b, o)
  {
  }

  /** A record that may have another length but has the same entry. */
  predicate SameEntry(b: Mem, c: Mem, o: nat, e: nat)
  {
    && |c| == |b| && Legal(b, o, e) && Legal(c, o, e)
    && Ino(c, o) == Ino(b, o) && NameLen(c, o) == NameLen(b, o) && EntryAt(c, o) == EntryAt(b, o)
  }

  /** The same entries after a record at o that may have another length. */
  predicate Reformed(b: Mem, c: Mem, o: nat, e: nat)
  {
    && SameEntry(b, c, o, e) && Only(b, c, o, e)
    && Reaches(b, o + Len(b, o), e) && Reaches(c, o + Len(c, o), e)
    && Names(c, o + Len(c, o), e) == Names(b, o + Len(b, o), e)
  }

  lemma ReformedThen(b: Mem, c: Mem, d: Mem, o: nat, e: nat)
    requires Reformed(b, c, o, e) && Reformed(c, d, o, e)
    ensures Reformed(b, d, o, e)
  {
    hide Raw, Len, Ino, EntryAt, NameLen, Names, Reaches, Legal;
  }

  lemma ReformedSame(b: Mem, o: nat, e: nat)
    requires Legal(b, o, e) && Reaches(b, o + Len(b, o), e)
    ensures Reformed(b, b, o, e)
  {
  }

  lemma AbsorbedTiles(b: Mem, o: nat, e: nat, csum: bool)
    requires Ends(b, e, csum) && Legal(b, o, e) && Reaches(b, o + Len(b, o), e)
    ensures AbsorbedLen(b, o, csum) % 4 == 0
    ensures Reformed(b, Absorbed(b, o, csum), o, e)
    ensures Len(Absorbed(b, o, csum), o) == AbsorbedLen(b, o, csum)
  {
    hide Raw, Len, Ino, EntryAt, NameLen, Absorbed, IsTail, Reaches, Names;
    var next := o + Len(b, o);
    if Absorbs(b, o, csum) {
      ReachesLegal(b, next, e);
      ReachesStep(b, next, e);
      RawIsLen(b, next, e);
      NamesStep(b, next, e);
    }
    AbsorbedLegal(b, o, csum);
    var c := Absorbed(b, o, csum);
    var far := o + Len(c, o);
    OnlySame(b, c, o + 4, o + 6, far, e);
    SameNames(b, c, far, e);
  }

  lemma SplitTiles(b: Mem, o: nat, e: nat)
    requires Sized(b) && Legal(b, o, e) && Need(NameLen(b, o)) + HEAD <= Len(b, o) && Reaches(b, o + Len(b, o), e)
    ensures Reformed(b, Split(b, o), o, e)
    ensures Len(Split(b, o), o) == Need(NameLen(b, o))
  {
    hide Raw, Len, Ino, EntryAt, NameLen, Split, Need, Reaches, Names;
    SplitKeeps(b, o, e);
    var c := Split(b, o);
    var next := o + Len(c, o);
    var far := o + Len(b, o);
    OnlySame(b, c, o, far, far, e);
    SameNames(b, c, far, e);
    ReachesStep(c, next, e);
    if next + HEAD < |b| {
      NamesStep(c, next, e);
    } else {
      NamesEnd(c, next, e);
      NamesEnd(b, far, e);
    }
  }

  lemma ClaimMakes(b: Mem, o: nat, e: nat, l: Link)
    requires Sized(b) && LinkOk(l) && Legal(b, o, e) && Need(|l.name|) <= Len(b, o)
    ensures var c := Claim(b, o, l);
            && Legal(c, o, e) && Len(c, o) == Len(b, o) && Only(b, c, o, o + HEAD + |l.name|)
            && Only(b, c, o, o + Len(b, o)) && Ino(c, o) == l.ino && NameLen(c, o) == |l.name|
            && Describes(l, EntryAt(c, o))
  {
    hide Need, WordAt, Decoded;
    NeedBounds(|l.name|);
    var b1 := Put(b, o, WordBytes(l.ino));
    PutWord(b, o, l.ino);
    var c := Claim(b, o, l);
    SameWordAt(b1, c, o);
    assert EntryAt(c, o).name == l.name;
  }

  /** The bytes of a record that has been filled: inode number, length of the name, kind where typed, and name. */
  lemma ClaimBytes(b: Mem, o: nat, l: Link, i: nat)
    requires LinkOk(l) && o + 8 + |l.name| <= |b| && i < |b|
    ensures Claim(b, o, l)[i] ==
            if o <= i < o + 4 then WordBytes(l.ino)[i - o]
            else if i == o + 6 then |l.name|
            else if i == o + 7 && l.typed then l.kind
            else if o + 8 <= i < o + 8 + |l.name| then l.name[i - o - 8]
            else b[i]
  {
  }

  /** What a link pass from o makes of the records between o and e. */
  ghost predicate LinkedFrom(b: Mem, o: nat, e: nat, l: Link, r: Pass)
    requires Reaches(b, o, e)
  {
    && Only(b, r.b, o, e) && Reaches(r.b, o, e)
    && (r.verdict == Linked || r.verdict == Full)
    && (r.verdict == Linked ==> Added(Names(b, o, e), Names(r.b, o, e), l))
    && (r.verdict == Full ==> Names(r.b, o, e) == Names(b, o, e) && NoRoom(r.b, o, e, Need(|l.name|), l.csum))
  }

  /** A finished rest after a record that keeps its entry and has no room. */
  lemma LinkedOn(b: Mem, c: Mem, o: nat, e: nat, l: Link, r: Pass)
    requires o + HEAD < |b| && Reformed(b, c, o, e)
    requires IsTail(c, o, l.csum) || Tight(c, o, Need(|l.name|)) || r.verdict == Linked
    requires LinkedFrom(c, o + Len(c, o), e, l, r)
    ensures Reaches(b, o, e) && LinkedFrom(b, o, e, l, r)
  {
    hide Raw, Len, Ino, EntryAt, NameLen, Need, Added, Names;
    NamesStep(b, o, e);
    OnlySame(c, r.b, o + Len(c, o), e, o, o + Len(c, o));
    SameRecord(c, r.b, o, e);
    SameHead(c, r.b, o);
    NamesStep(r.b, o, e);
    assert Only(b, r.b, o, e);
    var head := if Ino(b, o) == 0 then [] else [EntryAt(b, o)];
    if r.verdict == Linked {
      AddedAfter(head, Names(c, o + Len(c, o), e), Names(r.b, o + Len(c, o), e), l);
    }
  }

  lemma EndsSame(b: Mem, c: Mem, o: nat, e: nat, csum: bool)
    requires Ends(b, e, csum) && Only(b, c, o, e)
    ensures Ends(c, e, csum)
  {
    hide Raw, Len, Ino, NameLen;
    if e != |b| {
      SameHead(b, c, e);
      assert NameLen(b, e) == NameLen(c, e);
    }
  }

  lemma LinkTilesEnd(b: Mem, o: nat, e: nat, l: Link)
    requires Ends(b, e, l.csum) && LinkOk(l) && Reaches(b, o, e)
    requires o == e || o + HEAD >= |b|
    ensures LinkedFrom(b, o, e, l, LinkPass(b, o, l)) && LinkPass(b, o, l).verdict == Full
  {
    hide Ino, Need, LinkStep, Reaches;
    NamesEnd(b, o, e);
    if o + HEAD < |b| {
      assert Legal(b, o, |b|) && o + Len(b, o) == |b|;
      assert LinkPass(b, |b|, l) == Pass(b, Full, false);
    }
  }

  /** One callback: the record keeps its entry and has no room, or it takes the new entry. */
  lemma LinkTilesStep(b: Mem, o: nat, e: nat, l: Link)
    requires Ends(b, e, l.csum) && LinkOk(l) && Legal(b, o, e) && Reaches(b, o + Len(b, o), e) && o + HEAD < |b|
    ensures !LinkStep(b, o, l).Fail?
    ensures var r := LinkStep(b, o, l);
            && (r.Go? ==> Ends(r.b, e, l.csum) && Reformed(b, r.b, o, e) && Tight(r.b, o, Need(|l.name|)))
            && (r.Stop? ==> Reaches(b, o, e) && LinkedFrom(b, o, e, l, Pass(r.b, Linked, true)))
  {
    hide Raw, Len, Ino, EntryAt, NameLen, Need, Absorbed, Split, Claim, Names, Reaches, IsTail, Describes;
    AbsorbedTiles(b, o, e, l.csum);
    NeedBounds(NameLen(b, o));
    NeedBounds(|l.name|);
    var c := Absorbed(b, o, l.csum);
    EndsSame(b, c, o, e, l.csum);
    match LinkStep(b, o, l)
    case Go(d, _) =>
      if Need(NameLen(b, o)) + Need(|l.name|) <= Len(c, o) {
        SplitTiles(c, o, e);
        ReformedThen(b, c, d, o, e);
        EndsSame(b, d, o, e, l.csum);
      }
    case Stop(d) =>
      ClaimMakes(c, o, e, l);
      var far := o + Len(c, o);
      OnlySame(c, d, o, far, far, e);
      SameNames(c, d, far, e);
      ReachesStep(b, o, e);
      NamesStep(b, o, e);
      NamesStep(d, o, e);
      assert InsertedAt(Names(b, o, e), Names(d, o, e), 0);
  }

  /**
   A link pass over tiled records keeps them tiling the block, adds exactly the
   new entry or gives up only when no record has room, and writes nothing
   outside the records: the checksum tail stays.
   */
  lemma {:induction false} LinkTiles(b: Mem, o: nat, e: nat, l: Link)
    requires Ends(b, e, l.csum) && LinkOk(l) && Reaches(b, o, e)
    ensures LinkedFrom(b, o, e, l, LinkPass(b, o, l))
    decreases |b| - o
  {
    hide Raw, Len, Ino, EntryAt, NameLen, Need, Absorbed, Split, Claim, Names, Reaches, SameEntry, Added;
    if o == e || o + HEAD >= |b| {
      LinkTilesEnd(b, o, e, l);
    } else {
      ReachesLegal(b, o, e);
      ReachesStep(b, o, e);
      if IsTail(b, o, l.csum) {
        LinkTiles(b, o + Len(b, o), e, l);
        ReformedSame(b, o, e);
        LinkedOn(b, b, o, e, l, LinkPass(b, o, l));
      } else {
        AbsorbedTiles(b, o, e, l.csum);
        LinkTilesStep(b, o, e, l);
        match LinkStep(b, o, l)
        case Go(c, _) =>
          LinkTiles(c, o + Len(c, o), e, l);
          LinkedOn(b, c, o, e, l, LinkPass(b, o, l));
        case Stop(c) =>
      }
    }
  }

  // ----- Unlink -----

  /** What to unlink: a name, or the first entry when no name is given. */
  datatype Want = Any | Named(name: Name)

  predicate Wanted(w: Want, e: Entry)
  {
    w.Any? || e.name == w.name
  }

  /** Give the record at o to its predecessor, or free it when it is the first. */
  function Dropped(b: Mem, prev: nat, o: nat): (c: Mem)
    requires o + HEAD <= |b| && prev + HEAD <= |b|
    ensures |c| == |b|
  {
    if o != 0 then Put(b, prev + 4, HalfBytes((Raw(b, prev) + Raw(b, o)) % 65536))
    else Put(b, o, WordBytes(0))
  }

  /** The walk from offset o; busy tells which inodes are directories in use. */
  function UnlinkPass(b: Mem, prev: nat, o: nat, w: Want, csum: bool, busy: nat -> bool): (r: Pass)
    requires Sized(b) && prev + HEAD <= |b|
    ensures |r.b| == |b|
    decreases |b| - o
  {
    if o + HEAD >= |b| then Pass(b, Missing, false)
    else if !Legal(b, o, |b|) then Pass(b, Corrupt, false)
    else if IsTail(b, o, csum) then UnlinkPass(b, prev, o + Len(b, o), w, csum, busy)
    else if !Wanted(w, EntryAt(b, o)) || Ino(b, o) == 0 then UnlinkPass(b, o, o + Len(b, o), w, csum, busy)
    else if busy(Ino(b, o)) then Pass(b, NotEmpty, false)
    else Pass(Dropped(b, prev, o), Removed, true)
  }

  /** An unlink pass says that it changed the block exactly when it removed an entry, and alters it in no other case. */
  lemma {:induction false} UnlinkChanged(b: Mem, prev: nat, o: nat, w: Want, csum: bool, busy: nat -> bool)
    requires Sized(b) && prev + HEAD <= |b|
    ensures var r := UnlinkPass(b, prev, o, w, csum, busy);
      (r.changed <==> r.verdict == Removed) && (r.b != b ==> r.changed) && r.verdict != Linked
    decreases |b| - o
  {
    hide Raw, Ino, NameLen, IsTail, EntryAt, Dropped;
    if o + HEAD < |b| && Legal(b, o, |b|) {
      if IsTail(b, o, csum) {
        UnlinkChanged(b, prev, o + Len(b, o), w, csum, busy);
      } else if !Wanted(w, EntryAt(b, o)) || Ino(b, o) == 0 {
        UnlinkChanged(b, o, o + Len(b, o), w, csum, busy);
      }
    }
  }

  /** Place k holds the first entry wanted. */
  predicate FirstAt(es: seq<Entry>, w: Want, k: nat)
  {
    k < |es| && Wanted(w, es[k]) && forall j :: 0 <= j < k ==> !Wanted(w, es[j])
  }

  predicate NoneWanted(es: seq<Entry>, w: Want)
  {
    forall j :: 0 <= j < |es| ==> !Wanted(w, es[j])
  }

  /** The first entry wanted is gone; the others keep their order. */
  ghost predicate Taken(was: seq<Entry>, now: seq<Entry>, w: Want, busy: nat -> bool)
  {
    exists k: nat :: FirstAt(was, w, k) && !busy(was[k].ino) && InsertedAt(now, was, k)
  }

  ghost predicate Held(was: seq<Entry>, w: Want, busy: nat -> bool)
  {
    exists k: nat :: FirstAt(was, w, k) && busy(was[k].ino)
  }

  ghost predicate UnlinkedFrom(b: Mem, s: nat, e: nat, w: Want, busy: nat -> bool, r: Pass)
    requires Reaches(b, s, e)
  {
    && Only(b, r.b, s, e) && Reaches(r.b, s, e)
    && match r.verdict
       case Removed => Taken(Names(b, s, e), Names(r.b, s, e), w, busy)
       case Missing => r.b == b && NoneWanted(Names(b, s, e), w)
       case NotEmpty => r.b == b && Held(Names(b, s, e), w, busy)
       case _ => false
  }

  lemma TakenAfter(head: seq<Entry>, was: seq<Entry>, now: seq<Entry>, w: Want, busy: nat -> bool)
    requires Taken(was, now, w, busy) && NoneWanted(head, w)
    ensures Taken(head + was, head + now, w, busy)
  {
    var k: nat :| FirstAt(was, w, k) && !busy(was[k].ino) && InsertedAt(now, was, k);
    assert FirstAt(head + was, w, |head| + k);
    assert InsertedAt(head + now, head + was, |head| + k);
  }

  lemma HeldAfter(head: seq<Entry>, was: seq<Entry>, w: Want, busy: nat -> bool)
    requires Held(was, w, busy) && NoneWanted(head, w)
    ensures Held(head + was, w, busy)
  {
    var k: nat :| FirstAt(was, w, k) && busy(was[k].ino);
    assert FirstAt(head + was, w, |head| + k);
  }

  /** A finished rest after a record that is not wanted. */
  lemma UnlinkedOn(b: Mem, s: nat, e: nat, w: Want, busy: nat -> bool, r: Pass)
    requires Legal(b, s, e) && s + HEAD < |b| && Reaches(b, s + Len(b, s), e)
    requires Ino(b, s) == 0 || !Wanted(w, EntryAt(b, s))
    requires UnlinkedFrom(b, s + Len(b, s), e, w, busy, r)
    ensures Reaches(b, s, e) && UnlinkedFrom(b, s, e, w, busy, r)
  {
    hide Raw, Len, Ino, EntryAt, NameLen, Names, Reaches, Taken, Held, Wanted;
    var next := s + Len(b, s);
    NamesStep(b, s, e);
    OnlySame(b, r.b, next, e, s, next);
    SameRecord(b, r.b, s, e);
    NamesStep(r.b, s, e);
    var head := if Ino(b, s) == 0 then [] else [EntryAt(b, s)];
    if r.verdict == Removed {
      TakenAfter(head, Names(b, next, e), Names(r.b, next, e), w, busy);
    } else if r.verdict == NotEmpty {
      HeldAfter(head, Names(b, next, e), w, busy);
    }
  }

  lemma GrownLength(b: Mem, prev: nat, o: nat, e: nat)
    requires Sized(b) && Legal(b, prev, e) && prev + Len(b, prev) == o && Legal(b, o, e) && 0 < o
    ensures var c := Dropped(b, prev, o); Len(c, prev) == Len(b, prev) + Len(b, o) && Only(b, c, prev + 4, prev + 6)
  {
    hide Raw, HalfBytes;
    RawIsLen(b, prev, e);
    RawIsLen(b, o, e);
    SetLenRaw(b, prev, (Raw(b, prev) + Raw(b, o)) % 65536);
  }

  /** The predecessor takes the record over: its entry is gone, the rest stays. */
  lemma DroppedAfter(b: Mem, prev: nat, o: nat, e: nat, w: Want, busy: nat -> bool)
    requires Sized(b) && Legal(b, prev, e) && prev + Len(b, prev) == o && Legal(b, o, e) && o + HEAD < |b|
    requires Reaches(b, o + Len(b, o), e)
    requires Ino(b, prev) == 0 || !Wanted(w, EntryAt(b, prev))
    requires Ino(b, o) != 0 && Wanted(w, EntryAt(b, o)) && !busy(Ino(b, o))
    ensures Reaches(b, prev, e) && UnlinkedFrom(b, prev, e, w, busy, Pass(Dropped(b, prev, o), Removed, true))
  {
    hide Raw, Len, Ino, NameLen, Names, Reaches, Wanted, Dropped;
    GrownLength(b, prev, o, e);
    var c := Dropped(b, prev, o);
    var far := o + Len(b, o);
    ReachesStep(b, o, e);
    NamesStep(b, prev, e);
    NamesStep(b, o, e);
    OnlySame(b, c, prev + 4, prev + 6, far, e);
    SameNames(b, c, far, e);
    GrownEntry(b, prev, o, e);
    NamesStep(c, prev, e);
    var head := if Ino(b, prev) == 0 then [] else [EntryAt(b, prev)];
    assert FirstAt(Names(b, prev, e), w, |head|);
    assert InsertedAt(Names(c, prev, e), Names(b, prev, e), |head|);
  }

  lemma GrownEntry(b: Mem, prev: nat, o: nat, e: nat)
    requires Sized(b) && Legal(b, prev, e) && prev + Len(b, prev) == o && Legal(b, o, e) && 0 < o
    ensures SameEntry(b, Dropped(b, prev, o), prev, e)
  {
    hide Raw, Len, WordAt, Dropped;
    GrownLength(b, prev, o, e);
    var c := Dropped(b, prev, o);
    OnlySame(b, c, prev + 4, prev + 6, prev, prev + 4);
    SameWordAt(b, c, prev);
    assert EntryAt(c, prev).name == EntryAt(b, prev).name;
  }

  lemma HeldHere(b: Mem, o: nat, e: nat, w: Want, busy: nat -> bool)
    requires Legal(b, o, e) && Reaches(b, o + Len(b, o), e) && o + HEAD < |b|
    requires Ino(b, o) != 0 && Wanted(w, EntryAt(b, o)) && busy(Ino(b, o))
    ensures Reaches(b, o, e) && UnlinkedFrom(b, o, e, w, busy, Pass(b, NotEmpty, false))
  {
    hide Len, Ino, Names, Reaches, Wanted;
    NamesStep(b, o, e);
    assert FirstAt(Names(b, o, e), w, 0);
  }

  lemma FreedFirst(b: Mem, prev: nat, e: nat, w: Want, busy: nat -> bool)
    requires Sized(b) && prev + HEAD <= |b| && Legal(b, 0, e) && Reaches(b, Len(b, 0), e)
    requires Ino(b, 0) != 0 && Wanted(w, EntryAt(b, 0)) && !busy(Ino(b, 0))
    ensures Reaches(b, 0, e) && UnlinkedFrom(b, 0, e, w, busy, Pass(Dropped(b, prev, 0), Removed, true))
  {
    hide Len, Ino, Names, Reaches, Wanted, Decoded, WordAt;
    FreeInode(b, 0);
    var c := Dropped(b, prev, 0);
    assert Len(c, 0) == Len(b, 0) by { FreedHead(b, prev); }
    OnlySame(b, c, 0, 4, Len(b, 0), e);
    SameNames(b, c, Len(b, 0), e);
    NamesStep(b, 0, e);
    NamesStep(c, 0, e);
    assert FirstAt(Names(b, 0, e), w, 0);
    assert InsertedAt(Names(c, 0, e), Names(b, 0, e), 0);
  }

  lemma FreedHead(b: Mem, prev: nat)
    requires prev + HEAD <= |b|
    ensures var c := Dropped(b, prev, 0); Len(c, 0) == Len(b, 0) && NameLen(c, 0) == NameLen(b, 0)
  {
  }

  /**
   An unlink pass over tiled records keeps them tiling the block, removes
   exactly the first entry wanted, and leaves the block alone when there is
   none or when the inode is a directory in use.
   */
  lemma {:induction false} UnlinkTiles(b: Mem, prev: nat, o: nat, e: nat, w: Want, csum: bool, busy: nat -> bool)
    requires Ends(b, e, csum) && Reaches(b, o, e) && prev + HEAD < |b|
    requires o == 0 ||
             (Legal(b, prev, e) && prev + Len(b, prev) == o && (Ino(b, prev) == 0 || !Wanted(w, EntryAt(b, prev))))
    ensures var s := if o == 0 then 0 else prev;
            Reaches(b, s, e) && UnlinkedFrom(b, s, e, w, busy, UnlinkPass(b, prev, o, w, csum, busy))
    decreases |b| - o
  {
    hide Raw, Len, Ino, EntryAt, NameLen, Dropped, Names, Reaches, Taken, Held, Wanted;
    var r := UnlinkPass(b, prev, o, w, csum, busy);
    if o == e || o + HEAD >= |b| {
      UnlinkTilesEnd(b, prev, o, e, w, csum, busy);
      if o != 0 {
        UnlinkedOn(b, prev, e, w, busy, r);
      }
    } else {
      ReachesLegal(b, o, e);
      ReachesStep(b, o, e);
      var next := o + Len(b, o);
      if IsTail(b, o, csum) || !Wanted(w, EntryAt(b, o)) || Ino(b, o) == 0 {
        UnlinkTiles(b, o, next, e, w, csum, busy);
        if IsTail(b, o, csum) {
          UnlinkTilesEnd(b, prev, next, e, w, csum, busy);
          UnlinkTilesEnd(b, o, next, e, w, csum, busy);
        }
        if o != 0 {
          UnlinkedOn(b, prev, e, w, busy, r);
        }
      } else if busy(Ino(b, o)) {
        HeldHere(b, o, e, w, busy);
        if o != 0 {
          UnlinkedOn(b, prev, e, w, busy, r);
        }
      } else if o != 0 {
        DroppedAfter(b, prev, o, e, w, busy);
      } else {
        FreedFirst(b, prev, e, w, busy);
      }
    }
  }

  lemma UnlinkTilesEnd(b: Mem, prev: nat, o: nat, e: nat, w: Want, csum: bool, busy: nat -> bool)
    requires Ends(b, e, csum) && Reaches(b, o, e) && prev + HEAD < |b|
    requires o == e || o + HEAD >= |b|
    ensures UnlinkPass(b, prev, o, w, csum, busy) == Pass(b, Missing, false)
    ensures UnlinkedFrom(b, o, e, w, busy, Pass(b, Missing, false))
  {
    hide Ino, Reaches;
    NamesEnd(b, o, e);
    if o + HEAD < |b| {
      assert Legal(b, o, |b|) && o + Len(b, o) == |b|;
      assert UnlinkPass(b, prev, |b|, w, csum, busy) == Pass(b, Missing, false);
    }
  }

  // ----- Lookup -----

  datatype Search = Found(ino: nat) | Absent | Bad

  function LookupPass(b: Mem, o: nat, name: Name): Search
    requires Sized(b)
    decreases |b| - o
  {
    if o + HEAD >= |b| then Absent
    else if !Legal(b, o, |b|) then Bad
    else if Ino(b, o) == 0 || EntryAt(b, o).name != name then LookupPass(b, o + Len(b, o), name)
    else Found(Ino(b, o))
  }

  /** The answer a list of entries gives. */
  ghost predicate Answers(es: seq<Entry>, name: Name, a: Search)
  {
    match a
    case Found(ino) => exists k: nat :: FirstAt(es, Named(name), k) && es[k].ino == ino
    case Absent => NoneWanted(es, Named(name))
    case Bad => false
  }

  /** Lookup finds the first entry of that name, and misses none. */
  lemma {:induction false} LookupFinds(b: Mem, o: nat, e: nat, name: Name, csum: bool)
    requires Ends(b, e, csum) && Reaches(b, o, e)
    ensures Answers(Names(b, o, e), name, LookupPass(b, o, name))
    decreases |b| - o
  {
    hide Raw, Len, Ino, EntryAt, NameLen, Names, Reaches;
    if o == e || o + HEAD >= |b| {
      LookupEnd(b, o, e, name, csum);
    } else {
      ReachesLegal(b, o, e);
      ReachesStep(b, o, e);
      NamesStep(b, o, e);
      var next := o + Len(b, o);
      LookupFinds(b, next, e, name, csum);
      var rest := Names(b, next, e);
      var es := Names(b, o, e);
      if Ino(b, o) == 0 {
        assert es == rest;
      } else {
        if EntryAt(b, o).name == name {
          EntryIno(b, o);
          assert FirstAt(es, Named(name), 0);
        } else if LookupPass(b, next, name).Found? {
          var k: nat :| FirstAt(rest, Named(name), k) && rest[k].ino == LookupPass(b, next, name).ino;
          assert FirstAt(es, Named(name), k + 1);
        }
      }
    }
  }

  lemma EntryIno(b: Mem, o: nat)
    requires o + HEAD <= |b| && o + HEAD + NameLen(b, o) <= |b|
    ensures EntryAt(b, o).ino == Ino(b, o)
  {
  }

  lemma LookupEnd(b: Mem, o: nat, e: nat, name: Name, csum: bool)
    requires Ends(b, e, csum) && Reaches(b, o, e)
    requires o == e || o + HEAD >= |b|
    ensures Answers(Names(b, o, e), name, LookupPass(b, o, name))
  {
    hide Reaches, WordAt;
    NamesEnd(b, o, e);
    if o + HEAD < |b| {
      assert Legal(b, o, |b|) && o + Len(b, o) == |b|;
      assert LookupPass(b, |b|, name) == Absent;
    }
  }
}
