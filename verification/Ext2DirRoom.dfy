/** When a directory block has room for one more name. */
module Ext2DirRoom {
  import opened Bytes
  import opened Memory
  import opened Ext2Dir

  /**
   The bytes a record has to offer: its own, and those of the free record right
   behind it, unless that begins in the last eight bytes before the checksum.
   */
  function Offers(b: Mem, o: nat, csum: bool): (g: nat)
    requires Legal(b, o, |b|)
  {
    var next := o + Len(b, o);
    if next + (if csum then 12 else 0) + 8 < |b| && Ino(b, next) == 0 then Len(b, o) + Len(b, next) else Len(b, o)
  }

  lemma OffersInside(b: Mem, o: nat, e: nat, csum: bool)
    requires Ends(b, e, csum) && Legal(b, o, e) && Reaches(b, o + Len(b, o), e)
    ensures 0 < Offers(b, o, csum) && o + Offers(b, o, csum) <= e && Reaches(b, o + Offers(b, o, csum), e)
    ensures Offers(b, o, csum) == AbsorbedLen(b, o, csum)
  {
    hide Raw, Len, Ino, EntryAt, NameLen, IsTail, Reaches;
    var next := o + Len(b, o);
    if next + (if csum then 12 else 0) + 8 < |b| && Ino(b, next) == 0 {
      ReachesLegal(b, next, e);
      ReachesStep(b, next, e);
      RawIsLen(b, next, e);
    }
  }

  /** A record with g bytes can take a name of that need: all of it if free, else what its own name leaves. */
  predicate Fits(b: Mem, o: nat, g: nat, need: nat)
    requires o + HEAD <= |b|
  {
    if Ino(b, o) == 0 then need <= g
    else Need(NameLen(b, o)) + need <= g && o + Need(NameLen(b, o)) + HEAD < |b|
  }

  /** No record from s on has room, where each is taken with what it offers. */
  predicate Crowded(b: Mem, s: nat, e: nat, need: nat, csum: bool)
    requires Ends(b, e, csum) && Reaches(b, s, e)
    decreases e - s
  {
    s == e || s + HEAD >= |b| ||
    if IsTail(b, s, csum) then Crowded(b, s + Len(b, s), e, need, csum)
    else
      OffersInside(b, s, e, csum);
      !Fits(b, s, Offers(b, s, csum), need) && Crowded(b, s + Offers(b, s, csum), e, need, csum)
  }

  lemma CrowdedStep(b: Mem, s: nat, e: nat, need: nat, csum: bool)
    requires Ends(b, e, csum) && Reaches(b, s, e) && s != e && s + HEAD < |b| && !IsTail(b, s, csum)
    ensures Legal(b, s, e) && Reaches(b, s + Offers(b, s, csum), e) && 0 < Offers(b, s, csum) <= e - s
    ensures Crowded(b, s, e, need, csum) <==>
            !Fits(b, s, Offers(b, s, csum), need) && Crowded(b, s + Offers(b, s, csum), e, need, csum)
  {
    hide Raw, Len, Ino, EntryAt, NameLen, IsTail, Fits, Offers;
    ReachesLegal(b, s, e);
    ReachesStep(b, s, e);
    OffersInside(b, s, e, csum);
  }

  /** Room depends on the bytes from s on only. */
  lemma {:induction false} CrowdedSame(b: Mem, c: Mem, s: nat, e: nat, need: nat, csum: bool)
    requires Ends(b, e, csum) && Ends(c, e, csum) && Reaches(b, s, e) && Reaches(c, s, e) && Same(b, c, s, |b|)
    ensures Crowded(b, s, e, need, csum) == Crowded(c, s, e, need, csum)
    decreases e - s
  {
    hide Raw, Len, Ino, EntryAt, NameLen, Reaches, Crowded;
    if s != e && s + HEAD < |b| {
      SameHead(b, c, s);
      ReachesLegal(b, s, e);
      ReachesStep(b, s, e);
      if IsTail(b, s, csum) {
        CrowdedTail(b, s, e, need, csum);
        CrowdedTail(c, s, e, need, csum);
        CrowdedSame(b, c, s + Len(b, s), e, need, csum);
      } else {
        CrowdedStep(b, s, e, need, csum);
        CrowdedStep(c, s, e, need, csum);
        OffersSame(b, c, s, csum);
        CrowdedSame(b, c, s + Offers(b, s, csum), e, need, csum);
      }
    } else {
      CrowdedEnd(b, s, e, need, csum);
      CrowdedEnd(c, s, e, need, csum);
    }
  }

  lemma CrowdedEnd(b: Mem, s: nat, e: nat, need: nat, csum: bool)
    requires Ends(b, e, csum) && Reaches(b, s, e) && (s == e || s + HEAD >= |b|)
    ensures Crowded(b, s, e, need, csum)
  {
    hide Raw, Len, Ino, NameLen, IsTail, Reaches;
  }

  lemma CrowdedTail(b: Mem, s: nat, e: nat, need: nat, csum: bool)
    requires Ends(b, e, csum) && Reaches(b, s, e) && s != e && s + HEAD < |b| && IsTail(b, s, csum)
    ensures Legal(b, s, e) && Reaches(b, s + Len(b, s), e)
    ensures Crowded(b, s, e, need, csum) == Crowded(b, s + Len(b, s), e, need, csum)
  {
    hide Raw, Len, Ino, NameLen, IsTail;
  }

  lemma OffersSame(b: Mem, c: Mem, s: nat, csum: bool)
    requires Legal(b, s, |b|) && Legal(c, s, |c|) && Same(b, c, s, |b|)
    ensures Offers(b, s, csum) == Offers(c, s, csum)
  {
    hide Raw, Len, Ino, NameLen;
    SameHead(b, c, s);
    var next := s + Len(b, s);
    if next + 8 < |b| {
      SameHead(b, c, next);
    }
  }

  lemma SplitRoom(c: Mem, o: nat, e: nat, l: Link, d: Mem, next: nat)
    requires Ends(c, e, l.csum) && LinkOk(l) && Legal(c, o, e) && Reaches(c, o + Len(c, o), e)
    requires Need(NameLen(c, o)) + HEAD <= Need(NameLen(c, o)) + Need(|l.name|) <= Len(c, o)
    requires d == Split(c, o) && next == o + Need(NameLen(c, o))
    ensures Ends(d, e, l.csum) && Reaches(d, next, e) && Len(d, o) == next - o && next < e
    ensures next + HEAD < |d| ==> !Crowded(d, next, e, Need(|l.name|), l.csum)
    ensures next + HEAD >= |d| ==> o + Len(c, o) == e == |c|
  {
    hide Raw, Len, Ino, EntryAt, NameLen, Need, Split, Names, Reaches, Crowded;
    NeedBounds(NameLen(c, o));
    NeedBounds(|l.name|);
    SplitTiles(c, o, e);
    SplitKeeps(c, o, e);
    EndsSame(c, d, o, e, l.csum);
    if next + HEAD < |d| {
      SplitFree(c, o);
      CrowdedStep(d, next, e, Need(|l.name|), l.csum);
      OffersMore(d, next, l.csum);
    }
  }

  lemma OffersMore(b: Mem, o: nat, csum: bool)
    requires Legal(b, o, |b|)
    ensures Offers(b, o, csum) >= Len(b, o)
  {
  }

  /** The rest that a split leaves is not a checksum tail. */
  lemma SplitFree(c: Mem, o: nat)
    requires Sized(c) && Legal(c, o, |c|) && Need(NameLen(c, o)) + HEAD <= Len(c, o)
    ensures Split(c, o)[o + Need(NameLen(c, o)) + 7] == 0
  {
    hide Len, NameLen, Need, WordBytes;
  }

  /** The walk after a callback that goes on finds room exactly if the record, with its offer g, or what follows has. */
  ghost predicate GoesOn(b: Mem, c: Mem, o: nat, g: nat, e: nat, need: nat, csum: bool)
  {
    && Ends(b, e, csum) && Ends(c, e, csum) && o + HEAD <= |b| == |c| && Reaches(b, o + g, e)
    && Reaches(c, o + Len(c, o), e)
    && Crowded(c, o + Len(c, o), e, need, csum) == (!Fits(b, o, g, need) && Crowded(b, o + g, e, need, csum))
  }

  /** One callback on a record that is not the tail. */
  lemma StepFits(b: Mem, o: nat, e: nat, l: Link, r: Callback, g: nat)
    requires Ends(b, e, l.csum) && LinkOk(l) && Legal(b, o, e) && Reaches(b, o + Len(b, o), e) && o + HEAD < |b|
    requires r == LinkStep(b, o, l) && g == Offers(b, o, l.csum)
    ensures r.Stop? ==> Fits(b, o, g, Need(|l.name|))
    ensures r.Go? ==> GoesOn(b, r.b, o, g, e, Need(|l.name|), l.csum)
  {
    hide Raw, Len, Ino, EntryAt, NameLen, Need, Absorbed, Split, Claim, Names, Reaches, IsTail, Crowded, Offers;
    AbsorbedTiles(b, o, e, l.csum);
    OffersInside(b, o, e, l.csum);
    LinkTilesStep(b, o, e, l);
    var c := Absorbed(b, o, l.csum);
    EndsSame(b, c, o, e, l.csum);
    AbsorbedLegal(b, o, l.csum);
    var need := Need(|l.name|);
    if Ino(b, o) != 0 && Need(NameLen(b, o)) + need <= g {
      var next := o + Need(NameLen(c, o));
      NeedBounds(|l.name|);
      SplitRoom(c, o, e, l, Split(c, o), next);
      if next + HEAD >= |b| {
        CrowdedEnd(Split(c, o), next, e, need, l.csum);
        CrowdedEnd(b, o + g, e, need, l.csum);
      }
    } else if LinkStep(b, o, l).Go? {
      AbsorbedLegal(b, o, l.csum);
      CrowdedSame(b, c, o + g, e, need, l.csum);
    }
  }

  /** A link pass over tiled records gives up exactly when the block is crowded. */
  lemma {:induction false} LinkFits(b: Mem, o: nat, e: nat, l: Link)
    requires Ends(b, e, l.csum) && LinkOk(l) && Reaches(b, o, e)
    ensures LinkPass(b, o, l).verdict == if Crowded(b, o, e, Need(|l.name|), l.csum) then Full else Linked
    decreases |b| - o
  {
    hide Raw, Len, Ino, EntryAt, NameLen, Need, LinkStep, Reaches, Crowded, Fits, Offers, IsTail;
    if o == e || o + HEAD >= |b| {
      LinkTilesEnd(b, o, e, l);
      CrowdedEnd(b, o, e, Need(|l.name|), l.csum);
    } else {
      ReachesLegal(b, o, e);
      ReachesStep(b, o, e);
      if IsTail(b, o, l.csum) {
        CrowdedTail(b, o, e, Need(|l.name|), l.csum);
        LinkFits(b, o + Len(b, o), e, l);
      } else {
        CrowdedStep(b, o, e, Need(|l.name|), l.csum);
        LinkTilesStep(b, o, e, l);
        StepFits(b, o, e, l, LinkStep(b, o, l), Offers(b, o, l.csum));
        match LinkStep(b, o, l)
        case Go(c, _) => LinkFits(c, o + Len(c, o), e, l);
        case Stop(_) =>
      }
    }
  }

  // ----- What a removal leaves -----

  /** The record at x went to its predecessor at p, or was freed at the start of the block. */
  ghost predicate GaveBack(b: Mem, c: Mem, p: nat, x: nat, e: nat)
  {
    && Legal(b, x, e) && x + HEAD < |b| == |c| && Ino(b, x) != 0 && p + HEAD <= |b|
    && if x == 0 then p == 0 && Ino(c, 0) == 0 && Len(c, 0) == Len(b, 0) && Only(b, c, 0, 4)
       else
         && Legal(b, p, e) && p + Len(b, p) == x && Len(c, p) == Len(b, p) + Len(b, x)
         && Ino(c, p) == Ino(b, p) && NameLen(c, p) == NameLen(b, p) && Only(b, c, p + 4, p + 6)
  }

  /** A removal joins the record with the one before it; the first record stays, free. */
  lemma {:induction false} UnlinkJoins(b: Mem, prev: nat, o: nat, e: nat, w: Want, csum: bool, busy: nat -> bool)
    returns (p: nat, x: nat)
    requires Ends(b, e, csum) && Reaches(b, o, e) && prev + HEAD < |b|
    requires o == 0 || (Legal(b, prev, e) && prev + Len(b, prev) == o)
    requires UnlinkPass(b, prev, o, w, csum, busy).verdict == Removed
    ensures GaveBack(b, UnlinkPass(b, prev, o, w, csum, busy).b, p, x, e) && Wanted(w, EntryAt(b, x))
    ensures Reaches(b, if o == 0 then 0 else prev, p)
    decreases |b| - o
  {
    hide Raw, Len, Ino, EntryAt, NameLen, Dropped, Reaches, Wanted;
    if o == e || o + HEAD >= |b| {
      UnlinkTilesEnd(b, prev, o, e, w, csum, busy);
    }
    ReachesLegal(b, o, e);
    ReachesStep(b, o, e);
    var next := o + Len(b, o);
    if !Wanted(w, EntryAt(b, o)) || Ino(b, o) == 0 {
      p, x := UnlinkJoins(b, o, next, e, w, csum, busy);
      if o != 0 {
        ReachesFrom(b, prev, o, p, e);
      }
    } else {
      p, x := if o == 0 then 0 else prev, o;
      DroppedGives(b, prev, o, e);
      ReachesHere(b, p);
    }
  }

  lemma ReachesHere(b: Mem, p: nat)
    ensures Reaches(b, p, p)
  {
  }

  lemma {:induction false} ReachesFrom(b: Mem, s: nat, o: nat, p: nat, e: nat)
    requires Legal(b, s, e) && s + Len(b, s) == o && Reaches(b, o, p) && p <= e
    ensures Reaches(b, s, p)
    decreases p - o
  {
    hide Len, NameLen;
    ReachesUp(b, o, p);
  }

  lemma {:induction false} ReachesUp(b: Mem, o: nat, p: nat)
    requires Reaches(b, o, p)
    ensures o <= p
    decreases p - o
  {
    if o != p {
      ReachesUp(b, o + Len(b, o), p);
    }
  }

  lemma DroppedGives(b: Mem, prev: nat, o: nat, e: nat)
    requires Sized(b) && Legal(b, o, e) && o + HEAD < |b| && Ino(b, o) != 0 && prev + HEAD < |b|
    requires o == 0 || (Legal(b, prev, e) && prev + Len(b, prev) == o)
    ensures GaveBack(b, Dropped(b, prev, o), if o == 0 then 0 else prev, o, e)
  {
    hide Raw, Len, NameLen, EntryAt, WordAt, Legal;
    if o == 0 {
      FreedHead(b, prev);
      FreeInode(b, 0);
    } else {
      GrownLength(b, prev, o, e);
      GrownEntry(b, prev, o, e);
    }
  }

  lemma FitsMore(b: Mem, o: nat, g: nat, g': nat, need: nat)
    requires o + HEAD <= |b| && Fits(b, o, g, need) && g <= g'
    ensures Fits(b, o, g', need)
  {
  }

  /** A used record and a free one behind it offer at least what the free one has. */
  lemma FitsBefore(b: Mem, s: nat, e: nat, len: nat, need: nat)
    requires Legal(b, s, e) && s + Len(b, s) + HEAD < |b| && need <= len
    ensures Fits(b, s, Len(b, s) + len, need)
  {
    hide Len, Ino;
    NeedBounds(NameLen(b, s));
  }

  /** A record with room that the walk can reach, by itself or by its predecessor, is found. */
  lemma {:induction false} RoomFound(c: Mem, s: nat, p: nat, e: nat, need: nat, csum: bool)
    requires Ends(c, e, csum) && Reaches(c, s, p) && Reaches(c, s, e) && Legal(c, p, e) && p + HEAD < |c|
    requires Fits(c, p, Len(c, p), need) && !IsTail(c, p, csum)
    ensures !Crowded(c, s, e, need, csum)
    decreases p - s
  {
    hide Raw, Len, Ino, EntryAt, NameLen, Fits, Crowded, Reaches;
    if s == p {
      CrowdedStep(c, s, e, need, csum);
      OffersMore(c, s, csum);
      FitsMore(c, s, Len(c, s), Offers(c, s, csum), need);
    } else {
      ReachesLegal(c, s, p);
      ReachesStep(c, s, p);
      NotTail(c, s, p, csum);
      CrowdedStep(c, s, e, need, csum);
      var next := s + Len(c, s);
      if Offers(c, s, csum) == Len(c, s) {
        RoomFound(c, next, p, e, need, csum);
      } else if next == p {
        FreeFits(c, p, need);
        FitsBefore(c, s, e, Len(c, p), need);
      } else {
        ReachesLegal(c, next, p);
        ReachesStep(c, next, p);
        RoomFound(c, s + Offers(c, s, csum), p, e, need, csum);
      }
    }
  }

  lemma NotTail(c: Mem, s: nat, p: nat, csum: bool)
    requires Legal(c, s, p) && p + HEAD <= |c|
    ensures !IsTail(c, s, csum)
  {
    hide Ino;
  }

  lemma FreeFits(c: Mem, p: nat, need: nat)
    requires p + HEAD <= |c| && Ino(c, p) == 0 && Fits(c, p, Len(c, p), need)
    ensures need <= Len(c, p)
  {
  }

  lemma {:induction false} SameReaches(b: Mem, c: Mem, s: nat, p: nat)
    requires Reaches(b, s, p) && Same(b, c, s, p)
    ensures Reaches(c, s, p)
  {
    SameNames(b, c, s, p);
  }

  /** After a removal the block has room for any name that the removed record had room for. */
  lemma RoomLeft(b: Mem, c: Mem, p: nat, x: nat, e: nat, need: nat, csum: bool)
    requires Ends(b, e, csum) && Ends(c, e, csum) && Reaches(b, 0, p) && Reaches(c, 0, e) && GaveBack(b, c, p, x, e)
    requires Legal(c, p, e) && HEAD < need <= Len(b, x)
    ensures !Crowded(c, 0, e, need, csum)
  {
    hide Raw, Len, Ino, NameLen, EntryAt, Reaches, Crowded;
    RoomThere(b, c, p, x, e, need, csum);
    assert Same(b, c, 0, p);
    SameReaches(b, c, 0, p);
    RoomFound(c, 0, p, e, need, csum);
  }

  lemma RoomThere(b: Mem, c: Mem, p: nat, x: nat, e: nat, need: nat, csum: bool)
    requires Sized(c) && GaveBack(b, c, p, x, e) && Legal(c, p, e) && HEAD < need <= Len(b, x)
    ensures p + HEAD < |c| && Fits(c, p, Len(c, p), need) && !IsTail(c, p, csum)
  {
    hide Ino;
    NeedBounds(NameLen(b, p));
  }

  lemma LegalAfter(b: Mem, c: Mem, p: nat, x: nat, e: nat)
    requires GaveBack(b, c, p, x, e)
    ensures Legal(c, p, e)
  {
    hide Ino, Len;
  }

  /** Once a name is removed, any name that is not longer can be linked. */
  lemma UnlinkMakesRoom(b: Mem, e: nat, name: Name, busy: nat -> bool, l: Link, r: Pass)
    requires Ends(b, e, l.csum) && Reaches(b, 0, e) && LinkOk(l) && 0 < |l.name| <= |name|
    requires r == UnlinkPass(b, 0, 0, Named(name), l.csum, busy) && r.verdict == Removed
    ensures LinkPass(r.b, 0, l).verdict == Linked
  {
    hide Raw, Len, Ino, NameLen, Names, Reaches, Crowded, GaveBack, UnlinkPass, LinkPass, Need, Taken, Held;
    UnlinkTiles(b, 0, 0, e, Named(name), l.csum, busy);
    EndsSame(b, r.b, 0, e, l.csum);
    var p, x := UnlinkJoins(b, 0, 0, e, Named(name), l.csum, busy);
    LegalAfter(b, r.b, p, x, e);
    NeedFits(b, p, x, e, r.b, |l.name|);
    RoomLeft(b, r.b, p, x, e, Need(|l.name|), l.csum);
    LinkFits(r.b, 0, e, l);
  }

  lemma NeedFits(b: Mem, p: nat, x: nat, e: nat, c: Mem, n: nat)
    requires GaveBack(b, c, p, x, e) && 0 < n <= |EntryAt(b, x).name|
    ensures HEAD < Need(n) <= Len(b, x)
  {
    hide Ino, Len;
    NeedBounds(n);
  }
}
