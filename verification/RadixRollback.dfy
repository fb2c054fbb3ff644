/** Rolling a sequence back by part of its last page, and path compression: the rollback does
    not merge again, so it can leave a page that could be merged, and this is exactly when. */
module RadixRollback {
  import opened RadixPages
  import opened RadixSteps
  import opened RadixSearch
  import opened RadixCompression
  import opened RadixOperations

  /** The parent of p holds no sequence, p is its only child, and with p cut to k tokens both
      texts fit into the parent. */
  ghost predicate PairsWithParent(t: Tree, p: PageId, k: nat)
    requires p in t.parent
  {
    var above := t.parent[p];
    && above in t.ids && t.ids[above] == []
    && above in t.kids && t.kids[above] == [p]
    && above in t.tokens && |t.tokens[above]| + k <= Capacity(above)
  }

  /** Cutting an empty leaf leaves a compressed tree exactly if the leaf does not pair with
      its parent. */
  lemma CutLeafCompressedIff(t: Tree, p: PageId, k: nat, id: SeqId)
    requires Emptied(t, p) && p != ROOT && t.ids[p] == [] && t.kids[p] == [] && 0 < k <= |t.tokens[p]| && id !in t.where
    requires CompressedBut(t, {p}) && t.parent[p] in t.parent
    ensures Compressed(AddId(Retext(t, p, t.tokens[p][..k]), p, id)) <==> !PairsWithParent(t, p, k)
  {
    var u := Retext(t, p, t.tokens[p][..k]);
    var v := AddId(u, p, id);
    var above := t.parent[p];
    ParentDiffers(t.parent, t.tokens, t.path, p);
    AddIdMergeable(u, p, id, above);
    assert Mergeable(v, above) <==> PairsWithParent(t, p, k) by {
      if |t.kids[above]| == 1 { OnlyKid(t.parent, t.kids, above, p); }
    }
    if !Mergeable(v, above) {
      forall q | Mergeable(v, q) ensures false {
        AddIdMergeable(u, p, id, q);
        RetextMergeable(t, p, t.tokens[p][..k], q);
      }
    }
  }

  // ---------------------------------------------------------------- the condition, before the call

  /** Page q holds nothing but sequence id and the child d. */
  ghost predicate Bare(t: Tree, q: PageId, id: SeqId, d: PageId)
    requires q in t.ids && q in t.kids
  {
    Without(t.ids[q], id) == [] && Without(t.kids[q], d) == []
  }

  /** Page x stays when sequence id and the child d go, and could then be merged with the
      one child it has left. If the cut lies in its parent, which holds no sequence and no
      other child, `left` tokens before the end, the part behind the cut absorbs x; then
      the question is whether that child still fits. */
  ghost predicate KeptPair(t: Tree, id: SeqId, x: PageId, d: PageId, left: nat)
    requires SameDomain(t) && x in t.parent && t.parent[x] in t.parent
  {
    var p, rest := t.parent[x], Without(t.kids[x], d);
    && Without(t.ids[x], id) == [] && |rest| == 1 && rest[0] in t.tokens
    && |t.tokens[x]| + |t.tokens[rest[0]]| <= Capacity(x)
    && (0 < left < |t.tokens[p]| && t.ids[p] == [] && t.kids[p] == [x] && left + |t.tokens[x]| <= PAGE_CAPACITY ==>
          left + |t.tokens[x]| + |t.tokens[rest[0]]| <= PAGE_CAPACITY)
  }

  /** The rollback climbs from page q, below which it frees the child d, with `left` tokens to
      go. It frees bare pages. The first page it keeps decides: the one with the cut, if
      it is left an empty leaf that pairs with its parent, or one below the cut. */
  ghost predicate PairAbove(t: Tree, id: SeqId, q: PageId, d: PageId, left: nat)
    requires Wf(t) && q in t.parent
    decreases |t.path[q]|
  {
    if q == ROOT then false
    else
      ParentDiffers(t.parent, t.tokens, t.path, q);
      if left < |t.tokens[q]| then Bare(t, q, id, d) && PairsWithParent(t, q, |t.tokens[q]| - left)
      else if Bare(t, q, id, d) then PairAbove(t, id, t.parent[q], q, left - |t.tokens[q]|)
      else KeptPair(t, id, q, d, left - |t.tokens[q]|)
  }

  /** Rolling sequence id back by n tokens, but not all, leaves a page to merge. */
  ghost predicate LeavesPair(t: Tree, id: SeqId, n: nat)
    requires Wf(t) && id in t.where
  {
    t.where[id] in t.parent && n < |t.path[t.where[id]]| && PairAbove(t, id, t.where[id], NULL, n)
  }

  // ---------------------------------------------------------------- lists without one element

  lemma {:induction false} WithoutAbsent(s: seq<SeqId>, x: SeqId)
    requires x !in s
    ensures Without(s, x) == s
  {
    if s != [] { WithoutAbsent(s[1..], x); }
  }

  lemma {:induction false} DropIsWithout(s: seq<PageId>, k: nat)
    requires k < |s| && forall i :: 0 <= i < k ==> s[i] != s[k]
    ensures Drop(s, k) == Without(s, s[k])
  {
    if k > 0 {
      DropIsWithout(s[1..], k - 1);
      assert Drop(s, k) == [s[0]] + Drop(s[1..], k - 1);
    }
  }

  lemma CompressedWeakens(t: Tree, p: PageId)
    ensures Compressed(t) ==> CompressedBut(t, {p})
  {
  }

  // ---------------------------------------------------------------- what is left while climbing

  /** Page r of u is as in t, but for sequence id and, on page q, the child d. */
  ghost predicate PageRemains(t: Tree, u: Tree, id: SeqId, q: PageId, d: PageId, r: PageId)
    requires SameDomain(t) && SameDomain(u) && r in u.parent
  {
    && r in t.parent && u.parent[r] == t.parent[r] && u.tokens[r] == t.tokens[r]
    && u.ids[r] == Without(t.ids[r], id)
    && u.kids[r] == if r == q then Without(t.kids[r], d) else t.kids[r]
  }

  ghost predicate Remains(t: Tree, u: Tree, id: SeqId, q: PageId, d: PageId)
    requires SameDomain(t) && SameDomain(u)
  {
    forall r {:trigger PageRemains(t, u, id, q, d, r)} :: r in u.parent ==> PageRemains(t, u, id, q, d, r)
  }

  /** Above the page of a sequence nothing lists it. */
  lemma OnlyThere(t: Tree, id: SeqId, r: PageId)
    requires Wf(t) && id in t.where && r in t.ids && r != t.where[id]
    ensures Without(t.ids[r], id) == t.ids[r]
  {
    assert forall i :: 0 <= i < |t.ids[r]| ==> t.ids[r][i] != id;
    WithoutAbsent(t.ids[r], id);
  }

  lemma NotNull(t: Tree, r: PageId)
    requires Wf(t) && r in t.parent
    ensures Without(t.kids[r], NULL) == t.kids[r]
  {
    if NULL in t.kids[r] { KidsAreChildren(t.parent, t.kids, r, NULL); }
    WithoutAbsent(t.kids[r], NULL);
  }

  lemma DetachRemains(t: Tree, id: SeqId)
    requires Wf(t) && id in t.where && t.where[id] in t.ids && SameDomain(PopId(t, t.where[id], id))
    ensures Remains(t, PopId(t, t.where[id], id), id, t.where[id], NULL)
  {
    var u := PopId(t, t.where[id], id);
    forall r | r in u.parent ensures PageRemains(t, u, id, t.where[id], NULL, r) {
      if r != t.where[id] { OnlyThere(t, id, r); }
      NotNull(t, r);
    }
  }

  lemma PrunedAt(u: Tree, q: PageId, k: nat, r: PageId)
    requires SameDomain(u) && q in u.parent && u.parent[q] in u.parent && k < |u.kids[u.parent[q]]| && r in u.parent
    requires r != q
    ensures
      var v := Prune(u, q, k);
      && r in v.parent && r in v.tokens && r in v.ids && r in v.kids
      && v.parent[r] == u.parent[r] && v.tokens[r] == u.tokens[r] && v.ids[r] == u.ids[r]
      && v.kids[r] == if r == u.parent[q] then Drop(u.kids[r], k) else u.kids[r]
  {
    hide FirstAfterDrop, NextAfterDrop, Drop;
  }

  lemma PruneRemainsAt(t: Tree, u: Tree, id: SeqId, q: PageId, d: PageId, k: nat, r: PageId)
    requires SameDomain(t) && SameDomain(u) && q in u.parent && u.parent[q] in u.parent && u.parent[q] != q
    requires k < |u.kids[u.parent[q]]| && SameDomain(Prune(u, q, k)) && r in u.parent && r != q
    requires PageRemains(t, u, id, q, d, r) && Drop(u.kids[u.parent[q]], k) == Without(u.kids[u.parent[q]], q)
    ensures r in Prune(u, q, k).parent && PageRemains(t, Prune(u, q, k), id, u.parent[q], q, r)
  {
    PrunedAt(u, q, k, r);
    hide Prune, Drop, Without;
  }

  lemma PruneRemains(t: Tree, u: Tree, id: SeqId, q: PageId, d: PageId, k: nat)
    requires Wf(t) && Wf(u) && Remains(t, u, id, q, d)
    requires q in u.parent && q != ROOT && u.parent[q] in u.parent && u.parent[q] != q
    requires k < |u.kids[u.parent[q]]| && u.kids[u.parent[q]][k] == q && SameDomain(Prune(u, q, k))
    ensures Remains(t, Prune(u, q, k), id, u.parent[q], q)
  {
    DropIsWithout(u.kids[u.parent[q]], k);
    assert Prune(u, q, k).parent.Keys == u.parent.Keys - {q};
    hide Nested, Threaded, Labelled, Indexed, PageRemains, Prune;
    forall r | r in Prune(u, q, k).parent ensures PageRemains(t, Prune(u, q, k), id, u.parent[q], q, r) {
      assert r in u.parent && r != q;
      assert PageRemains(t, u, id, q, d, r);
      PruneRemainsAt(t, u, id, q, d, k, r);
    }
  }

  // ---------------------------------------------------------------- the cut

  /** Among the pages of u only x may be mergeable; p, which is x or an ancestor of x, is then
      cut `left` tokens before its end. This is when a page to merge stays: below the cut
      page, x itself or the part behind the cut after absorbing x. */
  ghost predicate Spoilt(u: Tree, x: PageId, p: PageId, left: nat)
    requires SameDomain(u) && x in u.parent && p in u.parent && left <= |u.tokens[p]|
  {
    if x == p then u.ids[p] == [] && u.kids[p] == [] && PairsWithParent(u, p, |u.tokens[p]| - left)
    else Mergeable(u, x) && (Swallows(u, p, x, left) ==> TailFits(u, x, left))
  }

  /** The part behind the cut, `left` tokens of p, merges with its only child x. */
  ghost predicate Swallows(u: Tree, p: PageId, x: PageId, left: nat)
    requires SameDomain(u) && x in u.parent && p in u.parent
  {
    0 < left && u.ids[p] == [] && u.kids[p] == [x] && left + |u.tokens[x]| <= PAGE_CAPACITY
  }

  /** With `left` more tokens in front, x could still be merged with its one child. */
  ghost predicate TailFits(u: Tree, x: PageId, left: nat)
    requires SameDomain(u) && x in u.parent
  {
    && u.ids[x] == [] && |u.kids[x]| == 1 && u.kids[x][0] in u.tokens
    && left + |u.tokens[x]| + |u.tokens[u.kids[x][0]]| <= PAGE_CAPACITY
  }

  /** A fusion leaves the question open where it was for a page that is not the fused one, its
      child or its parent. */
  lemma FuseElsewhere(t: Tree, p: PageId, q: PageId)
    requires SameDomain(t) && Nested(t.parent, t.kids) && Labelled(t.parent, t.tokens, t.path)
    requires p in t.parent && p != ROOT && |t.kids[p]| == 1 && t.kids[p][0] in t.parent
    requires q in t.parent && q != p && q != t.kids[p][0] && q != t.parent[p]
    ensures Mergeable(Fuse(t, p), q) <==> Mergeable(t, q)
  {
    var c := t.kids[p][0];
    assert c in t.kids[p];
    KidDiffers(t.parent, t.kids, t.tokens, t.path, p, c);
    if |t.kids[q]| == 1 {
      var g := t.kids[q][0];
      assert g in t.kids[q];
      KidDiffers(t.parent, t.kids, t.tokens, t.path, q, g);
    }
  }

  lemma SettleElsewhere(t: Tree, p: PageId, q: PageId)
    requires SameDomain(t) && Nested(t.parent, t.kids) && Labelled(t.parent, t.tokens, t.path)
    requires p in t.parent && q in t.parent && q != p && q != t.parent[p]
    requires Mergeable(t, p) ==> q != t.kids[p][0]
    ensures Mergeable(Settle(t, p), q) <==> Mergeable(t, q)
  {
    RootNeverMerges(t);
    if Mergeable(t, p) {
      assert t.kids[p][0] in t.kids[p];
      KidsAreChildren(t.parent, t.kids, p, t.kids[p][0]);
      FuseElsewhere(t, p, q);
    }
  }

  /** After fusing its child x, page p could merge again exactly if x could have with the
      text of p in front. */
  lemma FusedAgain(t: Tree, p: PageId, x: PageId)
    requires SameDomain(t) && Nested(t.parent, t.kids) && Labelled(t.parent, t.tokens, t.path)
    requires p in t.parent && p != ROOT && t.kids[p] == [x] && x in t.parent
    ensures Mergeable(Fuse(t, p), p) <==> TailFits(t, x, |t.tokens[p]|)
  {
    assert t.kids[p][0] == x && x in t.kids[p];
    KidDiffers(t.parent, t.kids, t.tokens, t.path, p, x);
    if |t.kids[x]| == 1 {
      var g := t.kids[x][0];
      assert g in t.kids[x];
      KidDiffers(t.parent, t.kids, t.tokens, t.path, x, g);
    }
  }

  /** What a split at k tokens of page p is asked about: p is cut above x. */
  ghost predicate CutAbove(u: Tree, x: PageId, p: PageId, k: nat, c: PageId) {
    && Wf(u) && p in u.parent && p != ROOT && c !in u.parent && c != NULL && 0 < k < |u.tokens[p]|
    && x in u.parent && |u.path[p]| < |u.path[x]|
  }

  /** The new page of a division, and any page that is not the divided one. */
  lemma DividedTail(u: Tree, p: PageId, k: nat, c: PageId)
    requires SameDomain(u) && p in u.parent && u.parent[p] in u.parent && c !in u.parent && k <= |u.tokens[p]|
    ensures
      var d := Divide(u, p, k, c);
      && c in d.parent && c in d.ids && c in d.kids && c in d.tokens
      && d.parent[c] == p && d.ids[c] == u.ids[p] && d.kids[c] == u.kids[p] && |d.tokens[c]| == |u.tokens[p]| - k
  {
  }

  lemma DividedOther(u: Tree, p: PageId, k: nat, c: PageId, y: PageId)
    requires SameDomain(u) && p in u.parent && u.parent[p] in u.parent && c !in u.parent && k <= |u.tokens[p]|
    requires y in u.parent && y != p
    ensures
      var d := Divide(u, p, k, c);
      && y in d.parent && y in d.ids && y in d.kids && y in d.tokens && y in d.path && y != c
      && d.ids[y] == u.ids[y] && d.kids[y] == u.kids[y] && d.tokens[y] == u.tokens[y] && d.path[y] == u.path[y]
  {
  }

  lemma ChildOf(u: Tree, p: PageId)
    requires Wf(u) && p in u.parent
    ensures p !in u.kids[p]
    ensures |u.kids[p]| == 1 ==> u.kids[p][0] in u.parent && u.kids[p][0] != p && u.kids[p] == [u.kids[p][0]]
  {
    KidsAreChildren(u.parent, u.kids, p, p);
    if p != ROOT { ParentDiffers(u.parent, u.tokens, u.path, p); }
    if |u.kids[p]| == 1 {
      assert u.kids[p][0] in u.kids[p];
      KidDiffers(u.parent, u.kids, u.tokens, u.path, p, u.kids[p][0]);
    }
  }

  /** The part behind the cut merges exactly if p had one child that fits behind it. */
  lemma TailMerges(u: Tree, x: PageId, p: PageId, k: nat, c: PageId)
    requires CutAbove(u, x, p, k, c)
    ensures u.parent[p] in u.parent && Wf(Divide(u, p, k, c))
    ensures Mergeable(Divide(u, p, k, c), c) ==> u.ids[p] == [] && |u.kids[p]| == 1 && u.kids[p][0] in u.parent
    ensures Swallows(u, p, x, |u.tokens[p]| - k) <==> Mergeable(Divide(u, p, k, c), c) && u.kids[p] == [x]
  {
    DivideKeeps(u, p, k, c);
    ParentDiffers(u.parent, u.tokens, u.path, p);
    ChildOf(u, p);
    DividedTail(u, p, k, c);
    if |u.kids[p]| == 1 { DividedOther(u, p, k, c, u.kids[p][0]); }
    hide Nested, Threaded, Labelled, Indexed, Divide;
  }

  /** The pages below the cut after the lower merge. */
  lemma BelowTheCut(u: Tree, x: PageId, p: PageId, k: nat, c: PageId)
    requires CutAbove(u, x, p, k, c)
    ensures u.parent[p] in u.parent && Wf(Divide(u, p, k, c))
    ensures
      var left := |u.tokens[p]| - k;
      var e := Settle(Divide(u, p, k, c), c);
      && (Swallows(u, p, x, left) ==> !Mergeable(e, x) && (Mergeable(e, c) <==> TailFits(u, x, left)))
      && (!Swallows(u, p, x, left) ==>
          x in e.parent && x != c && x in e.path && e.path[x] == u.path[x] && (Mergeable(e, x) <==> Mergeable(u, x)))
      && (Mergeable(e, c) ==>
            u.ids[p] == [] && |u.kids[p]| == 1 && u.kids[p][0] in u.parent && TailFits(u, u.kids[p][0], left))
  {
    TailMerges(u, x, p, k, c);
    NoAncestor(u, x, p);
    ChildOf(u, p);
    DividedTail(u, p, k, c);
    DividedOther(u, p, k, c, x);
    DivideMergeable(u, p, k, c, x);
    hide Nested, Threaded, Labelled, Indexed, Divide, Swallows, TailFits, Mergeable, Fuse;
    var d := Divide(u, p, k, c);
    if Mergeable(d, c) {
      var y := u.kids[p][0];
      AbsorbedTail(u, p, k, c, y);
      SettledTail(d, c, y, x);
    }
  }

  /** Fusing the tail with its child y leaves any page x that is neither, or removes y. */
  lemma SettledTail(d: Tree, c: PageId, y: PageId, x: PageId)
    requires Wf(d) && Mergeable(d, c) && d.kids[c] == [y] && x in d.parent && x != c && x != d.parent[c]
    ensures x == y ==> !Mergeable(Settle(d, c), x)
    ensures x != y ==>
              && x in Settle(d, c).parent && x in Settle(d, c).path && x in d.path && Settle(d, c).path[x] == d.path[x]
              && (Mergeable(Settle(d, c), x) <==> Mergeable(d, x))
  {
    ChildOf(d, c);
    FusedOther(d, c, y, x);
    if x == y { NotInFuse(d, c, x); } else { SettleElsewhere(d, c, x); }
    hide Nested, Threaded, Labelled, Indexed, Fuse, Mergeable;
  }

  lemma FusedOther(d: Tree, c: PageId, y: PageId, x: PageId)
    requires SameDomain(d) && c in d.parent && d.kids[c] == [y] && y in d.parent && x in d.parent && x != c
    ensures x != y ==> x in Fuse(d, c).parent && x in Fuse(d, c).path && Fuse(d, c).path[x] == d.path[x]
  {
  }

  lemma NoAncestor(u: Tree, x: PageId, p: PageId)
    requires Wf(u) && p in u.parent && p != ROOT && x in u.parent && |u.path[p]| < |u.path[x]|
    ensures x != p && x != u.parent[p] && x != ROOT
  {
    ParentDiffers(u.parent, u.tokens, u.path, p);
  }

  lemma AbsorbedTail(u: Tree, p: PageId, k: nat, c: PageId, y: PageId)
    requires Wf(u) && p in u.parent && p != ROOT && c !in u.parent && c != NULL && 0 < k < |u.tokens[p]|
    requires u.parent[p] in u.parent && u.kids[p] == [y] && Wf(Divide(u, p, k, c))
    ensures y in u.parent && y in Divide(u, p, k, c).parent
    ensures Mergeable(Divide(u, p, k, c), c) ==>
              (Mergeable(Settle(Divide(u, p, k, c), c), c) <==> TailFits(u, y, |u.tokens[p]| - k))
  {
    var d := Divide(u, p, k, c);
    assert u.kids[p][0] == y;
    ChildOf(u, p);
    DividedTail(u, p, k, c);
    DividedOther(u, p, k, c, y);
    ChildOf(u, y);
    if |u.kids[y]| == 1 {
      ParentDiffers(u.parent, u.tokens, u.path, p);
      GrandchildDiffers(u, p, y);
      DividedOther(u, p, k, c, u.kids[y][0]);
    }
    hide Divide;
    FusedAgain(d, c, y);
    hide Nested, Threaded, Labelled, Indexed, Fuse, Mergeable;
  }

  lemma GrandchildDiffers(u: Tree, p: PageId, y: PageId)
    requires Wf(u) && p in u.parent && u.kids[p] == [y] && y in u.parent && |u.kids[y]| == 1 && u.kids[y][0] in u.parent
    ensures u.kids[y][0] != p
  {
    assert u.kids[p][0] == y && y in u.kids[p] && u.kids[y][0] in u.kids[y];
    KidDiffers(u.parent, u.kids, u.tokens, u.path, p, y);
    KidDiffers(u.parent, u.kids, u.tokens, u.path, y, u.kids[y][0]);
  }

  /** The upper merge of a split does not touch the pages below the cut. */
  lemma AboveTheCut(u: Tree, x: PageId, p: PageId, k: nat, c: PageId, q: PageId)
    requires CutAbove(u, x, p, k, c)
    requires u.parent[p] in u.parent && Wf(Divide(u, p, k, c))
    requires
      var e := Settle(Divide(u, p, k, c), c);
      q in e.parent && p in e.parent && q in e.path && p in e.path && |e.path[p]| < |e.path[q]|
    ensures Mergeable(Split(u, p, k, c), q) <==> Mergeable(Settle(Divide(u, p, k, c), c), q)
  {
    SplitLower(u, p, k, c);
    LowerShape(u, p, k, c);
    var e := Settle(Divide(u, p, k, c), c);
    var pp := u.parent[p];
    hide Divide, Settle;
    NoAncestor(e, q, p);
    if pp != ROOT { ParentDiffers(e.parent, e.tokens, e.path, pp); }
    ParentDiffers(e.parent, e.tokens, e.path, p);
    if Mergeable(e, pp) { OnlyKid(e.parent, e.kids, pp, p); }
    SettleElsewhere(e, pp, q);
  }

  /** Where the split pages lie, by the length of their paths. */
  lemma TailIsDeeper(u: Tree, x: PageId, p: PageId, k: nat, c: PageId)
    requires CutAbove(u, x, p, k, c)
    ensures u.parent[p] in u.parent && Wf(Divide(u, p, k, c)) && Wf(Settle(Divide(u, p, k, c), c))
    ensures
      var e := Settle(Divide(u, p, k, c), c);
      && p in e.parent && p in e.path && |e.path[p]| < |u.path[p]|
      && c in e.parent && c in e.path && |e.path[p]| < |e.path[c]| && c != p && c != u.parent[p]
  {
    SplitLower(u, p, k, c);
    LowerShape(u, p, k, c);
    ParentDiffers(u.parent, u.tokens, u.path, p);
    var e := Settle(Divide(u, p, k, c), c);
    hide Divide, Settle;
    assert c in e.kids[p];
    KidDiffers(e.parent, e.kids, e.tokens, e.path, p, c);
  }

  /** Exactly which pages could be merged after a split above the only such page: x if it is
      not absorbed, or the page that absorbed it. */
  lemma SplitAbove(u: Tree, x: PageId, p: PageId, k: nat, c: PageId)
    requires CutAbove(u, x, p, k, c) && CompressedBut(u, {x})
    ensures x != CutPage(u, p, k, c) && c != CutPage(u, p, k, c)
    ensures Spoilt(u, x, p, |u.tokens[p]| - k) <==> Mergeable(Split(u, p, k, c), x) || Mergeable(Split(u, p, k, c), c)
    ensures forall q :: Mergeable(Split(u, p, k, c), q) && q != CutPage(u, p, k, c) ==> q == x || q == c
  {
    hide *;
    CutIsThere(u, x, p, k, c);
    SplitAboveSpoilt(u, x, p, k, c);
    CutPageDiffers(u, x, p, k, c);
    forall q | Mergeable(Split(u, p, k, c), q) && q != CutPage(u, p, k, c) ensures q == x || q == c {
      NewlyMergeable(u, x, p, k, c, q);
    }
  }

  lemma CutPageDiffers(u: Tree, x: PageId, p: PageId, k: nat, c: PageId)
    requires CutAbove(u, x, p, k, c)
    ensures x != CutPage(u, p, k, c) && c != CutPage(u, p, k, c)
  {
    NoAncestor(u, x, p);
    TailIsDeeper(u, x, p, k, c);
    hide Nested, Threaded, Labelled, Indexed, SameDomain, Divide, Settle, Mergeable;
  }

  lemma NewlyMergeable(u: Tree, x: PageId, p: PageId, k: nat, c: PageId, q: PageId)
    requires CutAbove(u, x, p, k, c) && CompressedBut(u, {x})
    requires Mergeable(Split(u, p, k, c), q) && q != CutPage(u, p, k, c)
    ensures q == x || q == c
  {
    SplitMergeable(u, p, k, c, q);
    hide Nested, Threaded, Labelled, Indexed, SameDomain, Divide, Settle, Split, CutPage, Mergeable;
  }

  lemma SplitAboveSpoilt(u: Tree, x: PageId, p: PageId, k: nat, c: PageId)
    requires CutAbove(u, x, p, k, c) && CompressedBut(u, {x})
    ensures Spoilt(u, x, p, |u.tokens[p]| - k) <==> Mergeable(Split(u, p, k, c), x) || Mergeable(Split(u, p, k, c), c)
  {
    hide *;
    CutIsThere(u, x, p, k, c);
    var left := |u.tokens[p]| - k;
    NoAncestor(u, x, p);
    TailIsDeeper(u, x, p, k, c);
    BelowTheCut(u, x, p, k, c);
    OnlyTheKid(u, x, p, left);
    SpoiltBelow(u, x, p, left);
    AboveTheCut(u, x, p, k, c, c);
    if Swallows(u, p, x, left) {
      AbsorbedIsGone(u, x, p, k, c);
      SwallowsOne(u, p, x, left);
    } else {
      AboveTheCut(u, x, p, k, c, x);
      NotSwallowed(u, p, x, left);
    }
  }

  lemma CutIsThere(u: Tree, x: PageId, p: PageId, k: nat, c: PageId)
    requires CutAbove(u, x, p, k, c)
    ensures Wf(u) && SameDomain(u) && p in u.parent && p in u.tokens && p in u.path && p in u.kids && p in u.ids
    ensures p != ROOT
    ensures c !in u.parent && c != NULL && 0 < k < |u.tokens[p]|
    ensures x in u.parent && x in u.path && x in u.tokens && |u.path[p]| < |u.path[x]|
  {
  }

  lemma SpoiltBelow(u: Tree, x: PageId, p: PageId, left: nat)
    requires SameDomain(u) && x in u.parent && p in u.parent && x != p && left <= |u.tokens[p]|
    ensures Spoilt(u, x, p, left) <==> Mergeable(u, x) && (Swallows(u, p, x, left) ==> TailFits(u, x, left))
  {
  }

  lemma SwallowsOne(u: Tree, p: PageId, x: PageId, left: nat)
    requires SameDomain(u) && x in u.parent && p in u.parent && Swallows(u, p, x, left)
    ensures |u.kids[p]| == 1 && u.kids[p] == [x]
  {
  }

  /** A tail that could merge on after absorbing x would have absorbed x. */
  lemma NotSwallowed(u: Tree, p: PageId, x: PageId, left: nat)
    requires SameDomain(u) && x in u.parent && p in u.parent && !Swallows(u, p, x, left) && 0 < left
    ensures u.kids[p] == [x] && TailFits(u, x, left) ==> u.ids[p] != []
  {
  }

  /** The child that the tail absorbed and that still fits can only be x. */
  lemma OnlyTheKid(u: Tree, x: PageId, p: PageId, left: nat)
    requires Wf(u) && p in u.parent && x in u.parent && x != p && CompressedBut(u, {x}) && left <= |u.tokens[p]|
    ensures |u.kids[p]| == 1 && u.kids[p][0] in u.parent && TailFits(u, u.kids[p][0], left) ==> u.kids[p] == [x]
    ensures Mergeable(u, x) <==> TailFits(u, x, 0) && x != ROOT
    ensures TailFits(u, x, left) ==> TailFits(u, x, 0)
  {
    RootNeverMerges(u);
    ChildOf(u, p);
    if |u.kids[p]| == 1 {
      var y := u.kids[p][0];
      assert TailFits(u, y, left) && y != ROOT ==> Mergeable(u, y);
    }
  }

  lemma AbsorbedIsGone(u: Tree, x: PageId, p: PageId, k: nat, c: PageId)
    requires CutAbove(u, x, p, k, c) && u.parent[p] in u.parent && Wf(Divide(u, p, k, c))
    requires !Mergeable(Settle(Divide(u, p, k, c), c), x)
    ensures !Mergeable(Split(u, p, k, c), x)
  {
    SplitLower(u, p, k, c);
    NoAncestor(u, x, p);
    var e, pp := Settle(Divide(u, p, k, c), c), u.parent[p];
    hide Divide;
    RootNeverMerges(e);
    if Mergeable(e, pp) { FuseMergeable(e, pp, x); }
  }

  /** Cutting above the only page that may be mergeable, and hanging the sequence at the cut. */
  lemma CutAboveCompressedIff(u: Tree, x: PageId, p: PageId, k: nat, c: PageId, id: SeqId)
    requires CutAbove(u, x, p, k, c) && CompressedBut(u, {x})
    requires CutPage(u, p, k, c) in Split(u, p, k, c).ids
    ensures Compressed(AddId(Split(u, p, k, c), CutPage(u, p, k, c), id)) <==> !Spoilt(u, x, p, |u.tokens[p]| - k)
  {
    hide *;
    CutIsThere(u, x, p, k, c);
    SplitAbove(u, x, p, k, c);
    AttachedCompressed(Split(u, p, k, c), CutPage(u, p, k, c), id, x, c);
  }

  /** When only x and c may be mergeable besides r, hanging a sequence at r leaves a
      compressed tree exactly if neither is. */
  lemma AttachedCompressed(s: Tree, r: PageId, id: SeqId, x: PageId, c: PageId)
    requires r in s.ids && x != r && c != r
    requires forall q :: Mergeable(s, q) && q != r ==> q == x || q == c
    ensures Compressed(AddId(s, r, id)) <==> !(Mergeable(s, x) || Mergeable(s, c))
  {
    var v := AddId(s, r, id);
    forall q ensures Mergeable(v, q) <==> q != r && Mergeable(s, q) { AddIdMergeable(s, r, id, q); }
    hide Mergeable, AddId;
    assert Mergeable(v, x) <==> Mergeable(s, x);
    assert Mergeable(v, c) <==> Mergeable(s, c);
  }

  /** Hanging the sequence at the end of a page above the only one that may be mergeable. */
  lemma AttachAboveCompressedIff(u: Tree, x: PageId, p: PageId, id: SeqId)
    requires SameDomain(u) && x in u.parent && p in u.parent && x != p && CompressedBut(u, {x})
    ensures Compressed(AddId(u, p, id)) <==> !Spoilt(u, x, p, 0)
  {
    forall q ensures Mergeable(AddId(u, p, id), q) <==> q != p && Mergeable(u, q) { AddIdMergeable(u, p, id, q); }
    assert !Swallows(u, p, x, 0);
    hide Mergeable, AddId;
    assert Mergeable(AddId(u, p, id), x) <==> Mergeable(u, x);
  }

  // ---------------------------------------------------------------- the climb

  /** How far a rollback of sequence id by n tokens has got: the tree u, the page q reached,
      `left` tokens to go, and the page x that may have become mergeable. While all pages
      were freed x is q and d the child freed last; from the first page kept on, x is that
      page, u stays, and `rest` is what was to go behind x. */
  ghost predicate Climbing(t: Tree, u: Tree, id: SeqId, n: nat, q: PageId, left: nat, x: PageId, d: PageId, rest: nat) {
    && Wf(t) && Wf(u) && id in t.where && t.where[id] in t.parent && q in u.parent && x in u.parent
    && x in t.parent && t.parent[x] in t.parent
    && x != ROOT && u.parent[x] in u.parent && u.parent[x] == t.parent[x]
    && |t.path[x]| <= |t.path[t.where[id]]|
    && Remains(t, u, id, x, d)
    && (Compressed(t) ==> CompressedBut(u, {x}))
    && if x == q then LeavesPair(t, id, n) <==> PairAbove(t, id, q, d, left)
       else
         && (LeavesPair(t, id, n) <==> KeptPair(t, id, x, d, rest))
         && |u.path[q]| < |u.path[x]| && u.kids[q] != []
         && (q == u.parent[x] ==> left == rest)
         && (q != u.parent[x] ==> |u.path[q]| < |u.path[u.parent[x]]| && |u.tokens[u.parent[x]]| <= rest)
  }

  lemma ClimbStart(t: Tree, id: SeqId, n: nat)
    requires Wf(t) && id in t.where && t.where[id] in t.path && n < |t.path[t.where[id]]|
    requires t.where[id] in t.ids && Wf(PopId(t, t.where[id], id))
    requires Compressed(t) ==> CompressedBut(PopId(t, t.where[id], id), {t.where[id]})
    ensures Climbing(t, PopId(t, t.where[id], id), id, n, t.where[id], n, t.where[id], NULL, 0)
  {
    DetachRemains(t, id);
    ParentDiffers(t.parent, t.tokens, t.path, t.where[id]);
    hide Nested, Threaded, Labelled, Indexed, Remains, PairAbove, CompressedBut, Without;
  }

  /** Page q of u is bare exactly if it is in t, but for what is gone. */
  lemma BareMeans(t: Tree, u: Tree, id: SeqId, q: PageId, d: PageId)
    requires SameDomain(t) && SameDomain(u) && q in u.parent && Remains(t, u, id, q, d)
    ensures q in t.parent && u.parent[q] == t.parent[q] && u.tokens[q] == t.tokens[q]
    ensures Bare(t, q, id, d) <==> u.ids[q] == [] && u.kids[q] == []
  {
    assert PageRemains(t, u, id, q, d, q);
  }

  /** A page above the sequence's own is as it was. */
  lemma AboveRemains(t: Tree, u: Tree, id: SeqId, q: PageId, d: PageId)
    requires Wf(t) && Wf(u) && id in t.where && t.where[id] in t.parent && q in u.parent && Remains(t, u, id, q, d)
    requires q in t.parent && q != ROOT && u.parent[q] == t.parent[q] && |t.path[q]| <= |t.path[t.where[id]]|
    ensures
      var a := t.parent[q];
      && a in t.parent && a in u.parent && a != q && a in t.path && |t.path[a]| < |t.path[t.where[id]]|
      && u.parent[a] == t.parent[a] && u.tokens[a] == t.tokens[a] && u.ids[a] == t.ids[a] && u.kids[a] == t.kids[a]
  {
    var a := t.parent[q];
    ParentDiffers(t.parent, t.tokens, t.path, q);
    ParentDiffers(u.parent, u.tokens, u.path, q);
    assert PageRemains(t, u, id, q, d, a);
    OnlyThere(t, id, a);
  }

  lemma ClimbDrop(t: Tree, u: Tree, id: SeqId, n: nat, q: PageId, left: nat, d: PageId, rest: nat, k: nat)
    requires Climbing(t, u, id, n, q, left, q, d, rest) && q in u.ids && q in u.kids && u.ids[q] == []
    requires u.kids[q] == []
    requires q in u.tokens && |u.tokens[q]| <= left && q in u.parent && u.parent[q] != ROOT && u.parent[q] in u.parent
    requires u.parent[q] in u.kids && k < |u.kids[u.parent[q]]| && u.kids[u.parent[q]][k] == q && Wf(Prune(u, q, k))
    requires u.parent[q] in Prune(u, q, k).parent
    requires Compressed(t) ==> CompressedBut(Prune(u, q, k), {u.parent[q]})
    ensures Climbing(t, Prune(u, q, k), id, n, u.parent[q], left - |u.tokens[q]|, u.parent[q], q, 0)
  {
    var a, v := u.parent[q], Prune(u, q, k);
    BareMeans(t, u, id, q, d);
    AboveRemains(t, u, id, q, d);
    PruneRemains(t, u, id, q, d, k);
    BareMeans(t, v, id, a, q);
    ParentDiffers(t.parent, t.tokens, t.path, a);
    ParentDiffers(v.parent, v.tokens, v.path, a);
    hide Nested, Threaded, Labelled, Indexed, Remains, CompressedBut, Without, Bare, KeptPair, PairsWithParent, Prune,
         LeavesPair;
  }

  /** As ClimbDrop, with compression kept by dropping the leaf. */
  lemma ClimbDropped(t: Tree, u: Tree, id: SeqId, n: nat, q: PageId, left: nat, d: PageId, rest: nat, k: nat)
    requires Climbing(t, u, id, n, q, left, q, d, rest) && q in u.ids && q in u.kids && u.ids[q] == []
    requires u.kids[q] == []
    requires q in u.tokens && |u.tokens[q]| <= left && q in u.parent && q != ROOT && u.parent[q] != ROOT
    requires u.parent[q] in u.parent
    requires u.parent[q] in u.kids && k < |u.kids[u.parent[q]]| && u.kids[u.parent[q]][k] == q
    requires SameDomain(u) && Wf(Prune(u, q, k)) && u.parent[q] in Prune(u, q, k).parent
    ensures Climbing(t, Prune(u, q, k), id, n, u.parent[q], left - |u.tokens[q]|, u.parent[q], q, 0)
  {
    if Compressed(t) { DropCompressed(u, q, k); }
    ClimbDrop(t, u, id, n, q, left, d, rest, k);
  }

  lemma ClimbKeep(t: Tree, u: Tree, id: SeqId, n: nat, q: PageId, left: nat, d: PageId, rest: nat)
    requires Climbing(t, u, id, n, q, left, q, d, rest) && q in u.ids && q in u.kids
    requires (u.ids[q] != [] || u.kids[q] != [])
    requires q in u.tokens && |u.tokens[q]| <= left && q in u.parent && u.parent[q] != ROOT
    ensures Climbing(t, u, id, n, u.parent[q], left - |u.tokens[q]|, q, d, left - |u.tokens[q]|)
  {
    BareMeans(t, u, id, q, d);
    AboveRemains(t, u, id, q, d);
    ParentDiffers(u.parent, u.tokens, u.path, q);
    KidsAreChildren(u.parent, u.kids, u.parent[q], q);
    hide Nested, Threaded, Labelled, Indexed, Remains, CompressedBut, Without, Bare, KeptPair, PairsWithParent,
         LeavesPair;
  }

  lemma ClimbPast(t: Tree, u: Tree, id: SeqId, n: nat, q: PageId, left: nat, x: PageId, d: PageId, rest: nat)
    requires Climbing(t, u, id, n, q, left, x, d, rest) && x != q && q in u.kids
    requires q in u.tokens && |u.tokens[q]| <= left && q in u.parent && q != ROOT
    ensures u.kids[q] != []
    ensures Climbing(t, u, id, n, u.parent[q], left - |u.tokens[q]|, x, d, rest)
  {
    ParentDiffers(u.parent, u.tokens, u.path, q);
    ParentDiffers(u.parent, u.tokens, u.path, x);
    KidsAreChildren(u.parent, u.kids, u.parent[q], q);
    hide Nested, Threaded, Labelled, Indexed, Remains, CompressedBut, Without, KeptPair, LeavesPair;
  }

  /** At the end of the climb the condition is whether the cut spoils compression. */
  lemma ClimbEnd(t: Tree, u: Tree, id: SeqId, n: nat, q: PageId, left: nat, x: PageId, d: PageId, rest: nat)
    requires Climbing(t, u, id, n, q, left, x, d, rest) && q in u.tokens && left < |u.tokens[q]| && q != ROOT
    ensures SameDomain(u) && x in u.parent && q in u.parent && (Compressed(t) ==> CompressedBut(u, {x}))
    ensures x != q ==> q in u.path && x in u.path && |u.path[q]| < |u.path[x]| && q in u.kids && u.kids[q] != []
    ensures LeavesPair(t, id, n) <==> Spoilt(u, x, q, left)
  {
    AboveRemains(t, u, id, x, d);
    BareMeans(t, u, id, x, d);
    if x == q {
      hide Nested, Threaded, Labelled, Indexed, Remains, CompressedBut, Without, Bare, KeptPair, LeavesPair;
    } else {
      KeptMeans(t, u, id, q, left, x, d, rest);
    }
  }

  lemma KeptMeans(t: Tree, u: Tree, id: SeqId, q: PageId, left: nat, x: PageId, d: PageId, rest: nat)
    requires Wf(t) && Wf(u) && x in t.parent && x in u.parent && q in u.parent && x != q && x != ROOT
    requires Remains(t, u, id, x, d)
    requires t.parent[x] in t.parent && t.parent[x] in u.parent && u.parent[x] == t.parent[x]
    requires u.tokens[t.parent[x]] == t.tokens[t.parent[x]] && u.ids[t.parent[x]] == t.ids[t.parent[x]]
    requires u.kids[t.parent[x]] == t.kids[t.parent[x]]
    requires left < |u.tokens[q]|
    requires q == u.parent[x] ==> left == rest
    requires q != u.parent[x] ==> |u.tokens[u.parent[x]]| <= rest
    ensures KeptPair(t, id, x, d, rest) <==> Spoilt(u, x, q, left)
  {
    hide *;
    KeptFacts(t, u, id, x, d, q);
    KeptByFacts(t, u, id, x, d, q, left, rest);
  }

  lemma KeptFacts(t: Tree, u: Tree, id: SeqId, x: PageId, d: PageId, q: PageId)
    requires Wf(t) && Wf(u) && x in u.parent && q in u.parent && Remains(t, u, id, x, d)
    ensures SameDomain(t) && SameDomain(u) && x in t.parent && u.ids[x] == Without(t.ids[x], id)
    ensures u.kids[x] == Without(t.kids[x], d)
    ensures u.tokens[x] == t.tokens[x]
    ensures |u.kids[x]| == 1 ==>
              u.kids[x][0] in u.tokens && u.kids[x][0] in t.tokens && u.tokens[u.kids[x][0]] == t.tokens[u.kids[x][0]]
    ensures u.kids[q] == [x] ==> q == u.parent[x]
  {
    assert PageRemains(t, u, id, x, d, x);
    ChildOf(u, x);
    if |u.kids[x]| == 1 { assert PageRemains(t, u, id, x, d, u.kids[x][0]); }
    KidsAreChildren(u.parent, u.kids, q, x);
    hide Nested, Threaded, Labelled, Indexed, Remains, Without;
    assert u.kids[q] == [x] ==> u.kids[q][0] == x;
  }

  lemma KeptByFacts(t: Tree, u: Tree, id: SeqId, x: PageId, d: PageId, q: PageId, left: nat, rest: nat)
    requires SameDomain(t) && SameDomain(u) && x in t.parent && x in u.parent && q in u.parent && x != q && x != ROOT
    requires u.ids[x] == Without(t.ids[x], id) && u.kids[x] == Without(t.kids[x], d) && u.tokens[x] == t.tokens[x]
    requires |u.kids[x]| == 1 ==>
               u.kids[x][0] in u.tokens && u.kids[x][0] in t.tokens && u.tokens[u.kids[x][0]] == t.tokens[u.kids[x][0]]
    requires u.kids[q] == [x] ==> q == u.parent[x]
    requires t.parent[x] in t.parent && t.parent[x] in u.parent && u.parent[x] == t.parent[x]
    requires u.tokens[t.parent[x]] == t.tokens[t.parent[x]] && u.ids[t.parent[x]] == t.ids[t.parent[x]]
    requires u.kids[t.parent[x]] == t.kids[t.parent[x]]
    requires left < |u.tokens[q]|
    requires q == u.parent[x] ==> left == rest
    requires q != u.parent[x] ==> |u.tokens[u.parent[x]]| <= rest
    ensures KeptPair(t, id, x, d, rest) <==> Spoilt(u, x, q, left)
  {
    hide Without;
  }

  /** A rollback of all tokens never leaves a pair. */
  lemma AllLeavesNone(t: Tree, id: SeqId, n: nat)
    requires Wf(t) && id in t.where && id in View(t) && n == |View(t)[id]|
    ensures !LeavesPair(t, id, n)
  {
  }

  // ---------------------------------------------------------------- in terms of the cut

  /** A page with a sequence or a child is not an empty leaf. */
  lemma NotSpoilt(t: Tree, x: PageId, p: PageId, left: nat)
    requires SameDomain(t) && Leafy(t) && p in t.parent && p != ROOT && x in t.parent && left <= |t.tokens[p]|
    ensures x == p ==> !Spoilt(t, x, p, left)
  {
  }

  lemma SpoiltLeaf(t: Tree, p: PageId, left: nat)
    requires SameDomain(t) && p in t.parent && t.ids[p] == [] && t.kids[p] == [] && left <= |t.tokens[p]|
    ensures Spoilt(t, p, p, left) <==> PairsWithParent(t, p, |t.tokens[p]| - left)
  {
  }

  lemma ForkBelow(t: Tree, x: PageId, p: PageId, k: nat, c: PageId, id: SeqId)
    requires Wf(t) && p in t.parent && p != ROOT && c !in t.parent && c != NULL && 0 < k < |t.tokens[p]|
    requires x in t.parent && (x == p || |t.path[p]| < |t.path[x]|)
    requires CutPage(t, p, k, c) in Split(t, p, k, c).ids
    ensures x != p && CompressedBut(t, {x}) ==>
              (Compressed(AddId(Split(t, p, k, c), CutPage(t, p, k, c), id)) <==> !Spoilt(t, x, p, |t.tokens[p]| - k))
  {
    hide Split, CutPage, AddId, CompressedBut, Spoilt;
    if x != p && CompressedBut(t, {x}) { CutAboveCompressedIff(t, x, p, k, c, id); }
  }

  lemma AttachBelow(t: Tree, x: PageId, p: PageId, id: SeqId)
    requires SameDomain(t) && x in t.parent && p in t.parent && CompressedBut(t, {x})
    ensures x == p ==> Compressed(AddId(t, p, id))
    ensures x != p ==> (Compressed(AddId(t, p, id)) <==> !Spoilt(t, x, p, 0))
  {
    if x == p {
      forall q | Mergeable(AddId(t, p, id), q) ensures false { AddIdMergeable(t, p, id, q); }
    } else {
      AttachAboveCompressedIff(t, x, p, id);
    }
  }

  // ---------------------------------------------------------------- it happens

  /** Three pages in a line: 64, a and b tokens. */
  ghost predicate Line(t: Tree, a: nat, b: nat) {
    LineLinks(t) && LineTexts(t, a, b)
  }

  ghost predicate LineLinks(t: Tree) {
    && SameDomain(t) && t.parent.Keys == {ROOT, 0, 1, 2}
    && t.parent[ROOT] == NULL && t.parent[0] == ROOT && t.parent[1] == 0 && t.parent[2] == 1
    && t.kids[ROOT] == [0] && t.kids[0] == [1] && t.kids[1] == [2] && t.kids[2] == []
    && t.firstChild[ROOT] == 0 && t.firstChild[0] == 1 && t.firstChild[1] == 2 && t.firstChild[2] == NULL
    && t.nextSibling[ROOT] == NULL && t.nextSibling[0] == NULL && t.nextSibling[1] == NULL && t.nextSibling[2] == NULL
  }

  ghost predicate LineTexts(t: Tree, a: nat, b: nat)
    requires SameDomain(t) && t.parent.Keys == {ROOT, 0, 1, 2}
  {
    && t.tokens[ROOT] == [] && |t.tokens[0]| == 64 && |t.tokens[1]| == a && |t.tokens[2]| == b
    && t.path[ROOT] == [] && t.path[0] == t.tokens[0] && t.path[1] == t.path[0] + t.tokens[1]
    && t.path[2] == t.path[1] + t.tokens[2]
  }

  lemma LineNested(t: Tree)
    requires LineLinks(t)
    ensures Nested(t.parent, t.kids)
  {
    forall p | p in t.parent && p != ROOT ensures t.parent[p] in t.parent && p in t.kids[t.parent[p]] {
      assert p == 0 || p == 1 || p == 2;
    }
    forall p, i | p in t.parent && 0 <= i < |t.kids[p]|
      ensures i == 0 && t.kids[p][i] in t.parent && t.kids[p][i] != ROOT && t.parent[t.kids[p][i]] == p
    {
      assert p == ROOT || p == 0 || p == 1 || p == 2;
    }
  }

  lemma LineThreaded(t: Tree)
    requires LineLinks(t)
    ensures Threaded(t.firstChild, t.nextSibling, t.kids)
  {
    forall p | p in t.kids ensures Chain(t.nextSibling, t.kids[p]) {
      assert forall i :: 0 <= i < |t.kids[p]| ==> ChainsAt(t.nextSibling, t.kids[p], i);
    }
  }

  lemma LineLabelled(t: Tree, a: nat, b: nat)
    requires LineLinks(t) && LineTexts(t, a, b) && 0 < a <= 64 && 0 < b <= 64
    ensures Labelled(t.parent, t.tokens, t.path)
  {
    assert t.path[ROOT] + t.tokens[0] == t.tokens[0];
    forall q | q in t.parent && q != ROOT ensures Text(t.parent, t.tokens, t.path, q) {
      assert q == 0 || q == 1 || q == 2;
    }
    forall q, r | q in t.parent && r in t.parent && q != ROOT && r != ROOT && q != r
      ensures t.parent[q] != t.parent[r]
    {
      assert (q == 0 || q == 1 || q == 2) && (r == 0 || r == 1 || r == 2);
    }
    LabelledFrom(t.parent, t.tokens, t.path);
  }

  lemma LineWf(t: Tree, a: nat, b: nat)
    requires Line(t, a, b) && 0 < a <= 64 && 0 < b <= 64 && Indexed(t.ids, t.where)
    ensures Wf(t)
  {
    LineNested(t);
    LineThreaded(t);
    LineLabelled(t, a, b);
    hide LineLinks, LineTexts, Nested, Threaded, Labelled, Indexed;
  }

  lemma LineCompressed(t: Tree, a: nat, b: nat)
    requires Line(t, a, b) && 0 < a && (a + b > 64 || t.ids[1] != [])
    ensures Compressed(t)
  {
    forall q ensures !Mergeable(t, q) {
      assert q in t.kids ==> q == ROOT || q == 0 || q == 1 || q == 2;
    }
  }

  function Zeros(n: nat): (r: seq<Token>)
    ensures |r| == n
  {
    seq(n, i => 0)
  }

  /** Such a line with these sequences. */
  ghost function LineOf(a: nat, b: nat, ids: map<PageId, seq<SeqId>>, where: map<SeqId, PageId>): Tree {
    Tree(map[ROOT := NULL, 0 := ROOT, 1 := 0, 2 := 1], map[ROOT := 0, 0 := 1, 1 := 2, 2 := NULL],
         map[ROOT := NULL, 0 := NULL, 1 := NULL, 2 := NULL], ids,
         map[ROOT := [], 0 := Zeros(64), 1 := Zeros(a), 2 := Zeros(b)], where,
         map[ROOT := [0], 0 := [1], 1 := [2], 2 := []],
         map[ROOT := [], 0 := Zeros(64), 1 := Zeros(64) + Zeros(a), 2 := Zeros(64) + Zeros(a) + Zeros(b)])
  }

  lemma LineOfLinks(a: nat, b: nat, ids: map<PageId, seq<SeqId>>, where: map<SeqId, PageId>)
    requires ids.Keys == {ROOT, 0, 1, 2}
    ensures LineLinks(LineOf(a, b, ids, where))
    ensures LineOf(a, b, ids, where).ids == ids && LineOf(a, b, ids, where).where == where
  {
    hide Zeros;
    LineOfDomain(a, b, ids, where);
    hide SameDomain;
  }

  lemma LineOfDomain(a: nat, b: nat, ids: map<PageId, seq<SeqId>>, where: map<SeqId, PageId>)
    requires ids.Keys == {ROOT, 0, 1, 2}
    ensures SameDomain(LineOf(a, b, ids, where)) && LineOf(a, b, ids, where).parent.Keys == {ROOT, 0, 1, 2}
  {
    hide Zeros;
    FourPages(NULL, ROOT, 0, 1);
    FourPages(0, 1, 2, NULL);
    FourPages(NULL, NULL, NULL, NULL);
    FourPages([], Zeros(64), Zeros(a), Zeros(b));
    FourPages([0], [1], [2], []);
    FourPages([], Zeros(64), Zeros(64) + Zeros(a), Zeros(64) + Zeros(a) + Zeros(b));
  }

  lemma FourPages<T>(root: T, a: T, b: T, c: T)
    ensures map[ROOT := root, 0 := a, 1 := b, 2 := c].Keys == {ROOT, 0, 1, 2}
  {
  }

  lemma LineOfTexts(a: nat, b: nat, ids: map<PageId, seq<SeqId>>, where: map<SeqId, PageId>)
    requires ids.Keys == {ROOT, 0, 1, 2}
    ensures SameDomain(LineOf(a, b, ids, where)) && LineOf(a, b, ids, where).parent.Keys == {ROOT, 0, 1, 2}
    ensures LineTexts(LineOf(a, b, ids, where), a, b)
  {
    hide Zeros;
    LineOfDomain(a, b, ids, where);
    hide SameDomain;
  }

  lemma RollbackPair(t: Tree)
    requires Line(t, 40, 30) && t.ids[ROOT] == [] && t.ids[0] == [] && t.ids[1] == [] && t.ids[2] == [7]
    requires t.where == map[7 := 2]
    ensures 7 in t.where && Wf(t) && Leafy(t) && Compressed(t) && LeavesPair(t, 7, 10)
  {
    LineWf(t, 40, 30);
    LineCompressed(t, 40, 30);
    LineLeafy(t);
    assert Without([7], 7) == [];
    LinePath(t, 40, 30);
    hide Nested, Threaded, Labelled, Indexed, CompressedBut, SameDomain, LeafyExcept;
  }

  lemma LineLeafy(t: Tree)
    requires LineLinks(t) && t.ids[2] != []
    ensures Leafy(t)
  {
    forall q | q in t.parent && q != ROOT && t.kids[q] == [] ensures t.ids[q] != [] {
      assert q == 0 || q == 1 || q == 2;
    }
  }

  lemma LinePath(t: Tree, a: nat, b: nat)
    requires Line(t, a, b)
    ensures |t.path[0]| == 64 && |t.path[1]| == 64 + a && |t.path[2]| == 64 + a + b
  {
  }

  lemma ClimbPair(t: Tree)
    requires Line(t, 10, 5) && t.ids[ROOT] == [] && t.ids[0] == [] && t.ids[1] == [7] && t.ids[2] == [8]
    requires t.where == map[7 := 1, 8 := 2]
    ensures 7 in t.where && Wf(t) && Leafy(t) && Compressed(t) && LeavesPair(t, 7, 10)
  {
    LineWf(t, 10, 5);
    LineCompressed(t, 10, 5);
    LineLeafy(t);
    NotNull(t, 1);
    assert Without([7], 7) == [];
    LinePath(t, 10, 5);
    hide Nested, Threaded, Labelled, Indexed, CompressedBut, SameDomain, LeafyExcept;
  }

  /** There is a sound tree with pages of 40 and 30 tokens, the last with sequence 7: rolling
      it back by 10 tokens leaves 40 and 20 tokens, which fit into one page. */
  lemma RollbackCanLeavePair() returns (t: Tree)
    ensures Line(t, 40, 30) && 7 in t.where && Wf(t) && Leafy(t) && Compressed(t) && LeavesPair(t, 7, 10)
  {
    var ids, where := map[ROOT := [], 0 := [], 1 := [], 2 := [7]], map[7 := 2];
    assert ids.Keys == {ROOT, 0, 1, 2};
    hide *;
    LineOfLinks(40, 30, ids, where);
    LineOfTexts(40, 30, ids, where);
    t := LineOf(40, 30, ids, where);
    LineIs(t, 40, 30);
    RollbackPair(t);
  }

  /** There is a sound tree with pages of 10 and 5 tokens and sequences 7 and 8: rolling
      sequence 7 back by 10 tokens keeps both pages, and nothing ends in the first any more. */
  lemma ClimbCanLeavePair() returns (t: Tree)
    ensures Line(t, 10, 5) && 7 in t.where && Wf(t) && Leafy(t) && Compressed(t) && LeavesPair(t, 7, 10)
  {
    var ids, where := map[ROOT := [], 0 := [], 1 := [7], 2 := [8]], map[7 := 1, 8 := 2];
    assert ids.Keys == {ROOT, 0, 1, 2};
    hide *;
    LineOfLinks(10, 5, ids, where);
    LineOfTexts(10, 5, ids, where);
    t := LineOf(10, 5, ids, where);
    LineIs(t, 10, 5);
    ClimbPair(t);
  }

  lemma LineIs(t: Tree, a: nat, b: nat)
    requires LineLinks(t) && LineTexts(t, a, b)
    ensures Line(t, a, b)
  {
  }
}
