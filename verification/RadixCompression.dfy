/** Path compression: which pages could be merged with their only child, how each step
    of the tree changes that, and the split that merges on both sides of its cut. */
module RadixCompression {
  import opened RadixPages
  import opened RadixSteps

  /** No sequence ends in p, p has exactly one child, and both texts fit in p. */
  ghost predicate Mergeable(t: Tree, p: PageId) {
    && p in t.ids && t.ids[p] == []
    && p in t.kids && |t.kids[p]| == 1
    && p in t.tokens && t.kids[p][0] in t.tokens
    && |t.tokens[p]| + |t.tokens[t.kids[p][0]]| <= Capacity(p)
  }

  /** No page outside `but` can be merged with its child. */
  ghost predicate CompressedBut(t: Tree, but: set<PageId>) {
    forall q {:trigger Mergeable(t, q)} :: Mergeable(t, q) ==> q in but
  }

  ghost predicate Compressed(t: Tree) {
    CompressedBut(t, {})
  }

  /** Path compression without reference to merging: a page below the root has at most 64 tokens,
      and if no sequence ends in it and it has only one child, the two have more than 64. */
  lemma CompressedMeans(t: Tree)
    requires Wf(t)
    ensures forall p :: p in t.parent && p != ROOT ==> p in t.tokens && 0 < |t.tokens[p]| <= 64
    ensures Compressed(t) <==>
              forall p {:trigger t.kids[p]} :: p in t.parent && p != ROOT && t.ids[p] == [] && |t.kids[p]| == 1 ==>
                t.kids[p][0] in t.tokens && |t.tokens[p]| + |t.tokens[t.kids[p][0]]| > 64
  {
    RootNeverMerges(t);
    hide Threaded, Indexed;
    if Compressed(t) {
      forall p {:trigger t.kids[p]} | p in t.parent && p != ROOT && t.ids[p] == [] && |t.kids[p]| == 1
        ensures t.kids[p][0] in t.tokens && |t.tokens[p]| + |t.tokens[t.kids[p][0]]| > 64
      {
        assert t.kids[p][0] in t.parent;
        assert !Mergeable(t, p);
      }
    }
  }

  lemma RootNeverMerges(t: Tree)
    requires Nested(t.parent, t.kids) && Labelled(t.parent, t.tokens, t.path)
    ensures !Mergeable(t, ROOT)
  {
    if t.kids[ROOT] != [] {
      var c := t.kids[ROOT][0];
      assert c in t.parent && c != ROOT;
      assert 0 < |t.tokens[c]|;
    }
  }

  lemma AddIdMergeable(t: Tree, p: PageId, id: SeqId, q: PageId)
    requires p in t.ids
    ensures Mergeable(AddId(t, p, id), q) <==> q != p && Mergeable(t, q)
  {
  }

  lemma PopIdMergeable(t: Tree, p: PageId, id: SeqId, q: PageId)
    requires p in t.ids && q != p
    ensures Mergeable(PopId(t, p, id), q) <==> Mergeable(t, q)
  {
  }

  lemma GraftMergeable(t: Tree, p: PageId, c: PageId, text: seq<Token>, q: PageId)
    requires SameDomain(t) && Nested(t.parent, t.kids) && p in t.parent && c !in t.parent && 0 < |text|
    ensures q != p && Mergeable(Graft(t, p, c, text), q) ==> Mergeable(t, q)
    ensures Mergeable(Graft(t, p, c, text), p) ==> t.ids[p] == [] && t.kids[p] == [] && |t.tokens[p]| < Capacity(p)
  {
    if q in t.kids && |t.kids[q]| == 1 {
      assert t.kids[q][0] in t.parent;
    }
  }

  lemma PruneMergeable(t: Tree, c: PageId, k: nat, q: PageId)
    requires SameDomain(t) && Nested(t.parent, t.kids)
    requires c in t.parent && c != ROOT && k < |t.kids[t.parent[c]]|
    requires q in t.parent && q != c && q != t.parent[c]
    ensures Mergeable(Prune(t, c, k), q) <==> Mergeable(t, q)
  {
    if |t.kids[q]| == 1 {
      assert t.parent[t.kids[q][0]] == q;
    }
  }

  lemma RetextMergeable(t: Tree, p: PageId, text: seq<Token>, q: PageId)
    requires SameDomain(t) && Nested(t.parent, t.kids)
    requires p in t.parent && p != ROOT && t.kids[p] == [] && q in t.parent
    ensures q != t.parent[p] ==> (Mergeable(Retext(t, p, text), q) <==> Mergeable(t, q))
    ensures |t.tokens[p]| <= |text| && Mergeable(Retext(t, p, text), q) ==> Mergeable(t, q)
  {
    if |t.kids[q]| == 1 {
      assert t.parent[t.kids[q][0]] == q;
    }
  }

  lemma DivideMergeable(t: Tree, p: PageId, k: nat, c: PageId, q: PageId)
    requires SameDomain(t) && Nested(t.parent, t.kids)
    requires p in t.parent && p != ROOT && c !in t.parent && k <= |t.tokens[p]|
    requires q in t.parent && q != p && q != t.parent[p]
    ensures Mergeable(Divide(t, p, k, c), q) <==> Mergeable(t, q)
  {
    if |t.kids[q]| == 1 {
      assert t.parent[t.kids[q][0]] == q;
    }
  }

  /** A fusion makes no page mergeable that was not, except that the fused page
      inherits the question from the child it absorbed. */
  lemma FuseMergeable(t: Tree, p: PageId, q: PageId)
    requires SameDomain(t) && Nested(t.parent, t.kids) && Labelled(t.parent, t.tokens, t.path)
    requires p in t.parent && p != ROOT && |t.kids[p]| == 1 && t.kids[p][0] in t.parent
    ensures Mergeable(Fuse(t, p), q) ==> Mergeable(t, if q == p then t.kids[p][0] else q)
  {
    var c := t.kids[p][0];
    assert c in t.kids[p];
    KidDiffers(t.parent, t.kids, t.tokens, t.path, p, c);
    var r := if q == p then c else q;
    if r in t.kids && |t.kids[r]| == 1 {
      assert t.kids[r][0] in t.kids[r];
      KidDiffers(t.parent, t.kids, t.tokens, t.path, r, t.kids[r][0]);
    }
  }

  // ---------------------------------------------------------------- split

  /** Merge p with its child if that is possible. */
  ghost function Settle(t: Tree, p: PageId): Tree
    requires SameDomain(t)
  {
    if Mergeable(t, p) then Fuse(t, p) else t
  }

  lemma SettleKeeps(t: Tree, p: PageId)
    requires Wf(t)
    ensures Wf(Settle(t, p))
    ensures View(Settle(t, p)) == View(t)
  {
    RootNeverMerges(t);
    if Mergeable(t, p) {
      FuseKeeps(t, p);
    }
  }

  lemma SettleLeafy(t: Tree, p: PageId)
    requires SameDomain(t) && Nested(t.parent, t.kids) && Labelled(t.parent, t.tokens, t.path)
    requires Leafy(t) && SameDomain(Settle(t, p))
    ensures Leafy(Settle(t, p))
  {
    RootNeverMerges(t);
    if Mergeable(t, p) {
      var c := t.kids[p][0];
      var u := Fuse(t, p);
      forall q | q in u.parent && q != ROOT && u.kids[q] == [] ensures u.ids[q] != [] {
        assert t.kids[if q == p then c else q] == [];
      }
    }
  }

  /** Dividing page p after k tokens into itself and the new page c, merging the second
      half with its only child and the first half with its parent where possible. */
  ghost function Split(t: Tree, p: PageId, k: nat, c: PageId): Tree
    requires Wf(t) && p in t.parent && p != ROOT && c !in t.parent && c != NULL && 0 < k < |t.tokens[p]|
  {
    SplitLower(t, p, k, c);
    Settle(Settle(Divide(t, p, k, c), c), t.parent[p])
  }

  /** The page that ends at the cut: p itself, or its parent if that absorbed p. */
  ghost function CutPage(t: Tree, p: PageId, k: nat, c: PageId): PageId
    requires Wf(t) && p in t.parent && p != ROOT && c !in t.parent && c != NULL && 0 < k < |t.tokens[p]|
  {
    SplitLower(t, p, k, c);
    if Mergeable(Settle(Divide(t, p, k, c), c), t.parent[p]) then t.parent[p] else p
  }

  lemma SplitLower(t: Tree, p: PageId, k: nat, c: PageId)
    requires Wf(t) && p in t.parent && p != ROOT && c !in t.parent && c != NULL && 0 < k < |t.tokens[p]|
    ensures t.parent[p] in t.parent
    ensures Wf(Divide(t, p, k, c)) && Wf(Settle(Divide(t, p, k, c), c))
    ensures View(Settle(Divide(t, p, k, c), c)) == View(t)
  {
    DivideKeeps(t, p, k, c);
    SettleKeeps(Divide(t, p, k, c), c);
  }

  lemma SplitKeeps(t: Tree, p: PageId, k: nat, c: PageId)
    requires Wf(t) && p in t.parent && p != ROOT && c !in t.parent && c != NULL && 0 < k < |t.tokens[p]|
    ensures Wf(Split(t, p, k, c))
    ensures View(Split(t, p, k, c)) == View(t)
  {
    SplitLower(t, p, k, c);
    SettleKeeps(Settle(Divide(t, p, k, c), c), t.parent[p]);
  }

  /** Page r holds no sequence, spells exactly `prefix`, and has one child c, which
      starts with `head`. */
  ghost predicate CutShape(u: Tree, r: PageId, c: PageId, prefix: seq<Token>, head: Token) {
    && r in u.parent && r != ROOT
    && r in u.ids && u.ids[r] == []
    && r in u.kids && u.kids[r] == [c]
    && r in u.path && u.path[r] == prefix
    && c in u.tokens && u.tokens[c] != [] && u.tokens[c][0] == head
  }

  lemma DivideShape(t: Tree, p: PageId, k: nat, c: PageId)
    requires SameDomain(t) && p in t.parent && p != ROOT && c !in t.parent && k < |t.tokens[p]|
    requires t.parent[p] in t.parent && p !in t.kids[p]
    ensures CutShape(Divide(t, p, k, c), p, c, t.path[t.parent[p]] + t.tokens[p][..k], t.tokens[p][k])
    ensures Divide(t, p, k, c).parent[p] == t.parent[p]
  {
  }

  /** Settling the child of the cut page leaves the shape of the cut. */
  lemma SettleBelow(d: Tree, p: PageId, c: PageId, prefix: seq<Token>, head: Token)
    requires SameDomain(d) && Nested(d.parent, d.kids) && Labelled(d.parent, d.tokens, d.path)
    requires CutShape(d, p, c, prefix, head)
    ensures SameDomain(Settle(d, c)) ==> CutShape(Settle(d, c), p, c, prefix, head)
    ensures p in Settle(d, c).parent && Settle(d, c).parent[p] == d.parent[p]
  {
    if Mergeable(d, c) {
      var g := d.kids[c][0];
      assert g in d.kids[c] && c in d.kids[p];
      KidDiffers(d.parent, d.kids, d.tokens, d.path, c, g);
      KidDiffers(d.parent, d.kids, d.tokens, d.path, p, c);
      KidsAreChildren(d.parent, d.kids, g, p);
      BelowDiffers(d, p, c, g);
    }
  }

  lemma BelowDiffers(d: Tree, p: PageId, c: PageId, g: PageId)
    requires Nested(d.parent, d.kids) && Labelled(d.parent, d.tokens, d.path)
    requires p in d.parent && c in d.kids[p] && c in d.parent && g in d.kids[c]
    ensures g != p && p !in d.kids[g] && g in d.parent
    ensures p !in d.kids[c]
  {
    KidDiffers(d.parent, d.kids, d.tokens, d.path, c, g);
    KidDiffers(d.parent, d.kids, d.tokens, d.path, p, c);
    KidsAreChildren(d.parent, d.kids, g, p);
    KidsAreChildren(d.parent, d.kids, c, p);
    if p != ROOT { ParentDiffers(d.parent, d.tokens, d.path, p); }
  }

  /** Settling the parent of the cut page moves the cut to the parent if they merge. */
  lemma SettleAbove(e: Tree, p: PageId, c: PageId, prefix: seq<Token>, head: Token)
    requires SameDomain(e) && Nested(e.parent, e.kids) && Labelled(e.parent, e.tokens, e.path)
    requires CutShape(e, p, c, prefix, head)
    ensures CutShape(Settle(e, e.parent[p]), if Mergeable(e, e.parent[p]) then e.parent[p] else p, c, prefix, head)
  {
    var pp := e.parent[p];
    if Mergeable(e, pp) {
      RootNeverMerges(e);
      assert c in e.kids[p];
      OnlyKid(e.parent, e.kids, pp, p);
      BelowDiffers(e, pp, p, c);
      KidDiffers(e.parent, e.kids, e.tokens, e.path, p, c);
    }
  }

  lemma SplitShape(t: Tree, p: PageId, k: nat, c: PageId)
    requires Wf(t) && p in t.parent && p != ROOT && c !in t.parent && c != NULL && 0 < k < |t.tokens[p]|
    ensures t.parent[p] in t.parent
    ensures CutShape(Split(t, p, k, c), CutPage(t, p, k, c), c,
                     t.path[t.parent[p]] + t.tokens[p][..k], t.tokens[p][k])
  {
    SplitLower(t, p, k, c);
    LowerShape(t, p, k, c);
    var e := Settle(Divide(t, p, k, c), c);
    SettleAbove(e, p, c, t.path[t.parent[p]] + t.tokens[p][..k], t.tokens[p][k]);
  }

  lemma LowerShape(t: Tree, p: PageId, k: nat, c: PageId)
    requires Wf(t) && p in t.parent && p != ROOT && c !in t.parent && c != NULL && 0 < k < |t.tokens[p]|
    ensures Wf(Settle(Divide(t, p, k, c), c)) && t.parent[p] in t.parent
    ensures CutShape(Settle(Divide(t, p, k, c), c), p, c, t.path[t.parent[p]] + t.tokens[p][..k], t.tokens[p][k])
    ensures Settle(Divide(t, p, k, c), c).parent[p] == t.parent[p]
  {
    SplitLower(t, p, k, c);
    KidsAreChildren(t.parent, t.kids, p, p);
    ParentDiffers(t.parent, t.tokens, t.path, p);
    DivideShape(t, p, k, c);
    SettleBelow(Divide(t, p, k, c), p, c, t.path[t.parent[p]] + t.tokens[p][..k], t.tokens[p][k]);
  }

  /** A split makes no page mergeable except, possibly, the page that ends at the cut. */
  lemma SplitMergeable(t: Tree, p: PageId, k: nat, c: PageId, q: PageId)
    requires Wf(t) && p in t.parent && p != ROOT && c !in t.parent && c != NULL && 0 < k < |t.tokens[p]|
    requires q != CutPage(t, p, k, c) && Mergeable(Split(t, p, k, c), q)
    ensures q != c ==> Mergeable(t, q)
    ensures q == c ==> t.kids[p] != [] && Mergeable(t, t.kids[p][0])
  {
    SplitLower(t, p, k, c);
    LowerShape(t, p, k, c);
    var pp := t.parent[p];
    var d := Divide(t, p, k, c);
    var e := Settle(d, c);
    assert Mergeable(e, q) by {
      RootNeverMerges(e);
      if Mergeable(e, pp) { FuseMergeable(e, pp, q); }
    }
    LowerMergeable(t, p, k, c, q);
  }

  lemma LowerMergeable(t: Tree, p: PageId, k: nat, c: PageId, q: PageId)
    requires Wf(t) && p in t.parent && p != ROOT && c !in t.parent && c != NULL && 0 < k < |t.tokens[p]|
    requires Wf(Divide(t, p, k, c)) && Mergeable(Settle(Divide(t, p, k, c), c), q)
    requires q != p && q != t.parent[p]
    ensures q != c ==> Mergeable(t, q)
    ensures q == c ==> t.kids[p] != [] && Mergeable(t, t.kids[p][0])
  {
    var d := Divide(t, p, k, c);
    if Mergeable(d, c) {
      FuseMergeable(d, c, q);
      var r := if q == c then d.kids[c][0] else q;
      if q == c {
        assert r in t.kids[p];
        KidDiffers(t.parent, t.kids, t.tokens, t.path, p, r);
        ParentDiffers(t.parent, t.tokens, t.path, p);
      }
      DivideMergeable(t, p, k, c, r);
    } else {
      DivideMergeable(t, p, k, c, q);
    }
  }

  lemma SplitLeafy(t: Tree, p: PageId, k: nat, c: PageId)
    requires Wf(t) && p in t.parent && p != ROOT && c !in t.parent && c != NULL && 0 < k < |t.tokens[p]|
    requires Leafy(t)
    ensures SameDomain(Split(t, p, k, c)) && Leafy(Split(t, p, k, c))
  {
    SplitKeeps(t, p, k, c);
    SplitLower(t, p, k, c);
    var d := Divide(t, p, k, c);
    forall q | q in d.parent && q != ROOT && d.kids[q] == [] ensures d.ids[q] != [] {
      assert t.kids[if q == c then p else q] == [];
    }
    SettleLeafy(d, c);
    SettleLeafy(Settle(d, c), t.parent[p]);
  }

  /** Only p and the pages right below it can disappear in a split. */
  lemma SplitAlive(t: Tree, p: PageId, k: nat, c: PageId, q: PageId)
    requires Wf(t) && p in t.parent && p != ROOT && c !in t.parent && c != NULL && 0 < k < |t.tokens[p]|
    requires q in t.parent && q != p && q !in t.kids[p]
    ensures q in Split(t, p, k, c).parent
  {
    LowerAlive(t, p, k, c);
    hide *;
    DivideAlive(t, p, k, c, q);
    UpperAlive(t, Settle(Divide(t, p, k, c), c), p, q);
  }

  /** The lower half of a split keeps the page and its place. */
  lemma LowerAlive(t: Tree, p: PageId, k: nat, c: PageId)
    requires Wf(t) && p in t.parent && p != ROOT && c !in t.parent && c != NULL && 0 < k < |t.tokens[p]|
    ensures t.parent[p] in t.parent && Wf(Divide(t, p, k, c)) && Wf(Settle(Divide(t, p, k, c), c))
    ensures p in Settle(Divide(t, p, k, c), c).parent && Settle(Divide(t, p, k, c), c).parent[p] == t.parent[p]
    ensures Split(t, p, k, c) == Settle(Settle(Divide(t, p, k, c), c), t.parent[p])
  {
    hide Divide, Settle, Labelled, Threaded, Indexed, Nested;
    SplitLower(t, p, k, c);
    LowerShape(t, p, k, c);
  }

  lemma UpperAlive(t: Tree, e: Tree, p: PageId, q: PageId)
    requires p in t.parent && p != ROOT && Wf(e) && p in e.parent && e.parent[p] == t.parent[p]
    requires t.parent[p] in t.parent
    requires q in e.parent && q != p
    ensures q in Settle(e, t.parent[p]).parent
  {
    hide Settle, Labelled, Threaded, Indexed;
    if Mergeable(e, t.parent[p]) {
      OnlyKid(e.parent, e.kids, t.parent[p], p);
    }
    FuseAlive(e, t.parent[p], q);
  }

  lemma DivideAlive(t: Tree, p: PageId, k: nat, c: PageId, q: PageId)
    requires SameDomain(t) && p in t.parent && p != ROOT && c !in t.parent && c != NULL && 0 < k < |t.tokens[p]|
    requires t.parent[p] in t.parent && SameDomain(Divide(t, p, k, c))
    requires q in t.parent && q != p && q !in t.kids[p]
    ensures q in Settle(Divide(t, p, k, c), c).parent
  {
    FuseAlive(Divide(t, p, k, c), c, q);
  }

  lemma OnlyKid(parent: map<PageId, PageId>, kids: map<PageId, seq<PageId>>, p: PageId, q: PageId)
    requires Nested(parent, kids) && p in parent && q in parent && q != ROOT && parent[q] == p && |kids[p]| == 1
    ensures kids[p] == [q]
  {
    KidsAreChildren(parent, kids, p, q);
  }

  lemma FuseAlive(t: Tree, p: PageId, q: PageId)
    requires SameDomain(t) && q in t.parent && (p in t.kids && |t.kids[p]| == 1 ==> q != t.kids[p][0])
    ensures q in Settle(t, p).parent
  {
  }
}
