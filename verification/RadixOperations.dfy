/** The tree operations phase by phase, on values: what holds while a sequence is being
    extended, removed, rolled back or forked, and what each phase establishes. */
module RadixOperations {
  import opened RadixPages
  import opened RadixSteps
  import opened RadixSearch
  import opened RadixCompression

  /** u has no mergeable page that t does not have. */
  ghost predicate NoNewMergeable(t: Tree, u: Tree) {
    forall q {:trigger Mergeable(u, q)} :: Mergeable(u, q) ==> Mergeable(t, q)
  }

  lemma StillCompressed(t: Tree, u: Tree)
    requires forall q :: Mergeable(u, q) ==> Mergeable(t, q)
    ensures Compressed(t) ==> Compressed(u)
  {
  }

  // ---------------------------------------------------------------- fork and add

  /** A sequence put at the end of an existing page. */
  lemma AttachKeeps(t: Tree, p: PageId, id: SeqId)
    requires Wf(t) && p in t.parent && id !in t.where
    ensures Wf(AddId(t, p, id))
    ensures View(AddId(t, p, id)) == View(t)[id := t.path[p]]
    ensures LeafyExcept(t, p) ==> Leafy(AddId(t, p, id))
    ensures forall q :: Mergeable(AddId(t, p, id), q) ==> q != p && Mergeable(t, q)
  {
    AddIdKeeps(t, p, id);
    forall q | Mergeable(AddId(t, p, id), q) ensures q != p && Mergeable(t, q) { AddIdMergeable(t, p, id, q); }
  }

  /** A sequence forked inside page p, k tokens into it. */
  lemma ForkInside(t: Tree, p: PageId, k: nat, c: PageId, id: SeqId)
    requires Wf(t) && p in t.parent && p != ROOT && c !in t.parent && c != NULL && 0 < k < |t.tokens[p]|
    requires id !in t.where && Leafy(t)
    ensures
      var r := CutPage(t, p, k, c);
      var s := Split(t, p, k, c);
      && r in s.parent && r in s.ids && id !in s.where && Wf(s) && SameDomain(AddId(s, r, id))
      && View(AddId(s, r, id)) == View(t)[id := t.path[t.parent[p]] + t.tokens[p][..k]]
      && Leafy(AddId(s, r, id))
      && (CompressedBut(t, {p}) ==> Compressed(AddId(s, r, id)))
  {
    var s, r := Split(t, p, k, c), CutPage(t, p, k, c);
    SplitKeeps(t, p, k, c);
    SplitShape(t, p, k, c);
    SplitLeafy(t, p, k, c);
    SameIds(t, s);
    AttachKeeps(s, r, id);
    if CompressedBut(t, {p}) { ForkInsideCompressed(t, p, k, c, id); }
  }

  /** A fork inside the only page that could be merged leaves none. */
  lemma ForkInsideCompressed(t: Tree, p: PageId, k: nat, c: PageId, id: SeqId)
    requires Wf(t) && p in t.parent && p != ROOT && c !in t.parent && c != NULL && 0 < k < |t.tokens[p]|
    requires CompressedBut(t, {p}) && CutPage(t, p, k, c) in Split(t, p, k, c).ids
    requires forall q :: Mergeable(AddId(Split(t, p, k, c), CutPage(t, p, k, c), id), q) ==>
               q != CutPage(t, p, k, c) && Mergeable(Split(t, p, k, c), q)
    ensures Compressed(AddId(Split(t, p, k, c), CutPage(t, p, k, c), id))
  {
    forall q | Mergeable(AddId(Split(t, p, k, c), CutPage(t, p, k, c), id), q) ensures false {
      SplitMergeable(t, p, k, c, q);
      NotAbsorbed(t, p, k, c);
      if t.kids[p] != [] {
        assert t.kids[p][0] in t.kids[p];
        KidDiffers(t.parent, t.kids, t.tokens, t.path, p, t.kids[p][0]);
      }
    }
  }

  /** A split page that its parent absorbed is gone. */
  lemma NotAbsorbed(t: Tree, p: PageId, k: nat, c: PageId)
    requires Wf(t) && p in t.parent && p != ROOT && c !in t.parent && c != NULL && 0 < k < |t.tokens[p]|
    ensures Mergeable(Split(t, p, k, c), p) ==> p == CutPage(t, p, k, c)
  {
    SplitLower(t, p, k, c);
    LowerShape(t, p, k, c);
    var e := Settle(Divide(t, p, k, c), c);
    var pp := t.parent[p];
    if Mergeable(e, pp) {
      OnlyKid(e.parent, e.kids, pp, p);
      NotInFuse(e, pp, p);
    }
  }

  /** Two trees that spell the same sequences store the same sequences. */
  lemma SameIds(t: Tree, u: Tree)
    requires Wf(t) && Wf(u) && View(t) == View(u)
    ensures t.where.Keys == u.where.Keys
  {
    ViewIds(t);
    ViewIds(u);
  }

  lemma ViewIds(t: Tree)
    requires Wf(t)
    ensures View(t).Keys == t.where.Keys
  {
    forall id | id in t.where ensures id in View(t) { assert t.where[id] in t.ids; }
  }

  // ---------------------------------------------------------------- extend

  /** Page p has no sequence, no child and room for more tokens. */
  ghost predicate Roomy(t: Tree, p: PageId) {
    p in t.ids && t.ids[p] == [] && p in t.kids && t.kids[p] == [] && p in t.tokens && |t.tokens[p]| < Capacity(p)
  }

  /** The text has been written up to `offset`, which is where page p ends. */
  ghost predicate Growing(t: Tree, base: seq<Token>, text: seq<Token>, p: PageId, offset: nat) {
    && Wf(t) && p in t.parent && offset <= |text|
    && t.path[p] == base + text[..offset]
    && LeafyExcept(t, p)
    && (offset < |text| ==> NoChildStarts(t, p, text[offset]))
  }

  lemma NoKids(t: Tree, p: PageId, token: Token)
    requires Nested(t.parent, t.kids) && t.tokens.Keys == t.parent.Keys && p in t.parent && t.kids[p] == []
    ensures NoChildStarts(t, p, token)
  {
    forall c | c in t.parent && c != ROOT ensures t.parent[c] != p {
      KidsAreChildren(t.parent, t.kids, p, c);
    }
  }

  /** Filling up a roomy page with the next n tokens. */
  lemma FillStep(t: Tree, base: seq<Token>, text: seq<Token>, p: PageId, offset: nat, n: nat)
    requires Growing(t, base, text, p, offset) && Roomy(t, p) && 0 < n && offset + n <= |text|
    requires |t.tokens[p]| + n <= PAGE_CAPACITY
    ensures p != ROOT && t.parent[p] in t.parent
    ensures
      var u := Retext(t, p, t.tokens[p] + text[offset..offset + n]);
      && Growing(u, base, text, p, offset + n)
      && View(u) == View(t)
      && NoNewMergeable(t, u) && !Mergeable(u, p)
  {
    assert p != ROOT;
    var more := t.tokens[p] + text[offset..offset + n];
    assert t.tokens[p] != [] && more[0] == t.tokens[p][0];
    RetextKeeps(t, p, more);
    FillText(t, base, text, p, offset, n);
    if offset + n < |text| {
      NoKids(t, p, text[offset + n]);
      SameKids(t, Retext(t, p, more), p, text[offset + n]);
    }
    FillMergeable(t, p, more);
  }

  lemma FillText(t: Tree, base: seq<Token>, text: seq<Token>, p: PageId, offset: nat, n: nat)
    requires SameDomain(t) && Labelled(t.parent, t.tokens, t.path) && p in t.parent && p != ROOT
    requires offset + n <= |text| && t.path[p] == base + text[..offset]
    ensures t.parent[p] in t.parent
    ensures Retext(t, p, t.tokens[p] + text[offset..offset + n]).path[p] == base + text[..offset + n]
  {
    var chunk := text[offset..offset + n];
    LabelOf(t.parent, t.tokens, t.path, p);
    hide Labelled;
    assert text[..offset + n] == text[..offset] + chunk;
    assert t.path[t.parent[p]] + (t.tokens[p] + chunk) == t.path[p] + chunk;
  }

  lemma SameKids(t: Tree, u: Tree, p: PageId, token: Token)
    requires Nested(t.parent, t.kids) && p in t.parent && t.kids[p] == [] && u.parent == t.parent
    ensures NoChildStarts(u, p, token)
  {
    forall c | c in t.parent && c != ROOT ensures t.parent[c] != p {
      KidsAreChildren(t.parent, t.kids, p, c);
    }
  }

  lemma FillMergeable(t: Tree, p: PageId, more: seq<Token>)
    requires SameDomain(t) && Nested(t.parent, t.kids)
    requires p in t.parent && p != ROOT && t.kids[p] == [] && |t.tokens[p]| <= |more|
    ensures NoNewMergeable(t, Retext(t, p, more)) && !Mergeable(Retext(t, p, more), p)
  {
    assert Retext(t, p, more).kids[p] == [];
    forall q | Mergeable(Retext(t, p, more), q) ensures Mergeable(t, q) {
      RetextMergeable(t, p, more, q);
    }
  }

  /** Hanging a new page with the next n tokens under a page that is not roomy. */
  lemma HangStep(t: Tree, base: seq<Token>, text: seq<Token>, p: PageId, offset: nat, n: nat, c: PageId)
    requires Growing(t, base, text, p, offset) && !Roomy(t, p) && 0 < n <= PAGE_CAPACITY && offset + n <= |text|
    requires c !in t.parent && c != NULL
    ensures
      var u := Graft(t, p, c, text[offset..offset + n]);
      && Growing(u, base, text, c, offset + n)
      && View(u) == View(t)
      && NoNewMergeable(t, u) && !Mergeable(u, p)
      && u.tokens[c] == text[offset..offset + n]
  {
    var chunk := text[offset..offset + n];
    OtherHeads(t, p, text[offset]);
    GraftKeeps(t, p, c, chunk);
    HangShape(t, base, text, p, offset, n, c);
    HangMergeable(t, p, c, chunk);
  }

  lemma OtherHeads(t: Tree, p: PageId, token: Token)
    requires Nested(t.parent, t.kids) && Labelled(t.parent, t.tokens, t.path) && p in t.parent
    requires NoChildStarts(t, p, token)
    ensures forall k | k in t.kids[p] :: k in t.tokens && t.tokens[k] != [] && t.tokens[k][0] != token
  {
    forall k | k in t.kids[p] ensures k in t.tokens && t.tokens[k] != [] && t.tokens[k][0] != token {
      KidsAreChildren(t.parent, t.kids, p, k);
      assert t.tokens[k] != [];
    }
  }

  lemma HangShape(t: Tree, base: seq<Token>, text: seq<Token>, p: PageId, offset: nat, n: nat, c: PageId)
    requires SameDomain(t) && Nested(t.parent, t.kids) && LeafyExcept(t, p)
    requires p in t.parent && c !in t.parent && c != NULL
    requires offset + n <= |text| && t.path[p] == base + text[..offset]
    ensures
      var u := Graft(t, p, c, text[offset..offset + n]);
      && u.path[c] == base + text[..offset + n]
      && SameDomain(u) && LeafyExcept(u, c)
      && (offset + n < |text| ==> NoChildStarts(u, c, text[offset + n]))
  {
    var chunk := text[offset..offset + n];
    assert text[..offset + n] == text[..offset] + chunk;
    GraftDomain(t, p, c, chunk);
    GraftPath(t, p, c, chunk);
    GraftLeafy(t, p, c, chunk);
    assert base + (text[..offset] + chunk) == base + text[..offset] + chunk;
    hide Graft, LeafyExcept, NoChildStarts, Nested, SameDomain;
    if offset + n < |text| { GraftNoChild(t, p, c, chunk, text[offset + n]); }
  }

  lemma GraftPath(t: Tree, p: PageId, c: PageId, chunk: seq<Token>)
    requires SameDomain(t) && p in t.parent && c !in t.parent && SameDomain(Graft(t, p, c, chunk))
    ensures c in Graft(t, p, c, chunk).path && Graft(t, p, c, chunk).path[c] == t.path[p] + chunk
  {
    hide LeafyExcept, Nested;
  }

  lemma GraftLeafy(t: Tree, p: PageId, c: PageId, chunk: seq<Token>)
    requires SameDomain(t) && LeafyExcept(t, p) && p in t.parent && c !in t.parent && c != NULL
    requires SameDomain(Graft(t, p, c, chunk))
    ensures LeafyExcept(Graft(t, p, c, chunk), c)
  {
  }

  lemma GraftNoChild(t: Tree, p: PageId, c: PageId, chunk: seq<Token>, token: Token)
    requires SameDomain(t) && Nested(t.parent, t.kids) && p in t.parent && c !in t.parent && c != NULL
    ensures NoChildStarts(Graft(t, p, c, chunk), c, token)
  {
    assert forall q | q in t.parent && q != ROOT :: t.parent[q] != c;
  }

  lemma HangMergeable(t: Tree, p: PageId, c: PageId, chunk: seq<Token>)
    requires SameDomain(t) && Nested(t.parent, t.kids) && p in t.parent && c !in t.parent && 0 < |chunk|
    requires !Roomy(t, p)
    ensures NoNewMergeable(t, Graft(t, p, c, chunk)) && !Mergeable(Graft(t, p, c, chunk), p)
  {
    GraftMergeable(t, p, c, chunk, p);
    forall q | Mergeable(Graft(t, p, c, chunk), q) ensures Mergeable(t, q) {
      GraftMergeable(t, p, c, chunk, q);
    }
  }

  /** The page where an extension starts still has its child if the walk left it. */
  lemma LeftBehind(t: Tree, start: PageId, page: PageId)
    requires Wf(t) && start in t.parent && page in t.parent && Under(t, start, page) && start != page
    ensures t.kids[start] != [] && |t.path[start]| < |t.path[page]|
    ensures LeafyExcept(t, start) ==> Leafy(t)
  {
    var c := Toward(t, start, page);
    KidsAreChildren(t.parent, t.kids, start, c);
    HeadContinues(t, c, page);
  }

  /** The walk stopped at the end of a page: writing can start there. */
  lemma ExtendAtEnd(t: Tree, start: PageId, text: seq<Token>, page: PageId, offset: nat, inPage: nat)
    requires Wf(t) && start in t.parent && LeafyExcept(t, start)
    requires Stops(t, start, text, page, offset, inPage) && inPage == |t.tokens[page]|
    ensures Growing(t, t.path[start], text, page, offset)
  {
    assert t.path[page][..|t.path[page]|] == t.path[page];
    if page != start { LeftBehind(t, start, page); }
  }

  /** The walk stopped inside a page: after the split, writing can start at the cut. */
  lemma ExtendInside(t: Tree, start: PageId, text: seq<Token>, page: PageId, offset: nat, inPage: nat, c: PageId)
    requires Wf(t) && start in t.parent && LeafyExcept(t, start)
    requires Stops(t, start, text, page, offset, inPage) && inPage < |t.tokens[page]|
    requires c !in t.parent && c != NULL
    ensures page != ROOT && 0 < inPage
    ensures
      var u := Split(t, page, inPage, c);
      var r := CutPage(t, page, inPage, c);
      && Growing(u, t.path[start], text, r, offset) && View(u) == View(t)
      && start in u.parent
      && (CompressedBut(t, {start}) ==> CompressedBut(u, {start, r}))
  {
    LeftBehind(t, start, page);
    assert page != ROOT by { NotTheRoot(t, page); }
    var u, r := Split(t, page, inPage, c), CutPage(t, page, inPage, c);
    SplitKeeps(t, page, inPage, c);
    SplitShape(t, page, inPage, c);
    SplitLeafy(t, page, inPage, c);
    CutText(t, page, inPage);
    CutKids(u, r, c, t.path[t.parent[page]] + t.tokens[page][..inPage], t.tokens[page][inPage]);
    NotBelow(t, start, page);
    SplitAlive(t, page, inPage, c, start);
    if CompressedBut(t, {start}) { ExtendInsideCompressed(t, start, page, inPage, c); }
  }

  lemma NotTheRoot(t: Tree, page: PageId)
    requires Labelled(t.parent, t.tokens, t.path) && page in t.parent && 0 < |t.path[page]|
    ensures page != ROOT
  {
  }

  lemma ExtendInsideCompressed(t: Tree, start: PageId, page: PageId, k: nat, c: PageId)
    requires Wf(t) && page in t.parent && page != ROOT && c !in t.parent && c != NULL && 0 < k < |t.tokens[page]|
    requires CompressedBut(t, {start}) && start !in t.kids[page]
    ensures CompressedBut(Split(t, page, k, c), {start, CutPage(t, page, k, c)})
  {
    var u, r := Split(t, page, k, c), CutPage(t, page, k, c);
    assert t.kids[page] != [] ==> t.kids[page][0] in t.kids[page];
    forall q | Mergeable(u, q) ensures q in {start, r} {
      if q != r { SplitMergeable(t, page, k, c, q); }
    }
  }

  lemma CutText(t: Tree, p: PageId, k: nat)
    requires Labelled(t.parent, t.tokens, t.path) && p in t.parent && p != ROOT && k <= |t.tokens[p]|
    ensures t.parent[p] in t.parent && |t.tokens[p]| <= |t.path[p]|
    ensures t.path[t.parent[p]] + t.tokens[p][..k] == t.path[p][..|t.path[p]| - |t.tokens[p]| + k]
  {
    assert t.path[p] == t.path[t.parent[p]] + t.tokens[p];
  }

  lemma CutKids(u: Tree, r: PageId, c: PageId, prefix: seq<Token>, head: Token)
    requires Wf(u) && CutShape(u, r, c, prefix, head)
    ensures forall token | token != head :: NoChildStarts(u, r, token)
  {
    forall k | k in u.parent && k != ROOT && u.parent[k] == r ensures k == c {
      KidsAreChildren(u.parent, u.kids, r, k);
    }
  }

  lemma NotBelow(t: Tree, start: PageId, page: PageId)
    requires Wf(t) && start in t.parent && page in t.parent && |t.path[start]| <= |t.path[page]|
    ensures start !in t.kids[page]
  {
    if start in t.kids[page] { KidDiffers(t.parent, t.kids, t.tokens, t.path, page, start); }
  }

  /** The text is written: hanging the sequence at its end and merging the page where the
      extension started completes it. */
  lemma ExtendDone(t: Tree, base: seq<Token>, text: seq<Token>, page: PageId, id: SeqId, start: PageId)
    requires Growing(t, base, text, page, |text|) && id !in t.where
    ensures
      var v := Settle(AddId(t, page, id), start);
      && Wf(AddId(t, page, id)) && Wf(v) && Leafy(v)
      && View(v) == View(t)[id := base + text]
      && (CompressedBut(t, {start, page}) ==> Compressed(v))
  {
    var u := AddId(t, page, id);
    AttachKeeps(t, page, id);
    assert text[..|text|] == text;
    SettleKeeps(u, start);
    SettleLeafy(u, start);
    if CompressedBut(t, {start, page}) {
      SettleCompressed(u, start);
    }
  }

  /** Merging the one page that could be merged leaves a compressed tree. */
  lemma SettleCompressed(t: Tree, p: PageId)
    requires Wf(t) && CompressedBut(t, {p})
    ensures Compressed(Settle(t, p))
  {
    RootNeverMerges(t);
    if Mergeable(t, p) {
      var c := t.kids[p][0];
      assert c in t.kids[p];
      KidDiffers(t.parent, t.kids, t.tokens, t.path, p, c);
      forall q | Mergeable(Fuse(t, p), q) ensures false {
        FuseMergeable(t, p, q);
        NotInFuse(t, p, q);
      }
    }
  }

  lemma NotInFuse(t: Tree, p: PageId, q: PageId)
    requires SameDomain(t) && p in t.parent && |t.kids[p]| == 1 && t.kids[p][0] in t.parent
    ensures Mergeable(Fuse(t, p), q) ==> q != t.kids[p][0]
  {
  }

  // ---------------------------------------------------------------- remove and roll back

  /** Page p may have been left an empty leaf; everything else is in order. */
  ghost predicate Emptied(t: Tree, p: PageId) {
    Wf(t) && p in t.parent && LeafyExcept(t, p)
  }

  /** Dropping an empty leaf moves the question to its parent. */
  lemma DropStep(t: Tree, p: PageId, k: nat)
    requires Emptied(t, p) && p != ROOT && t.ids[p] == [] && t.kids[p] == []
    requires t.parent[p] in t.parent && k < |t.kids[t.parent[p]]| && t.kids[t.parent[p]][k] == p
    ensures
      var u := Prune(t, p, k);
      && Emptied(u, t.parent[p]) && View(u) == View(t)
      && u.path[t.parent[p]] == t.path[t.parent[p]]
      && |t.path[p]| == |t.path[t.parent[p]]| + |t.tokens[p]| && 0 < |t.tokens[p]|
      && t.path[t.parent[p]] <= t.path[p]
      && (CompressedBut(t, {p}) ==> CompressedBut(u, {t.parent[p]}))
  {
    ParentDiffers(t.parent, t.tokens, t.path, p);
    assert t.path[p] == t.path[t.parent[p]] + t.tokens[p];
    PruneKeeps(t, p, k);
    DropLeafy(t, p, k);
    if CompressedBut(t, {p}) { DropCompressed(t, p, k); }
  }

  lemma DropLeafy(t: Tree, p: PageId, k: nat)
    requires SameDomain(t) && p in t.parent && t.parent[p] in t.parent && t.parent[p] != p && LeafyExcept(t, p)
    requires k < |t.kids[t.parent[p]]| && SameDomain(Prune(t, p, k))
    ensures LeafyExcept(Prune(t, p, k), t.parent[p])
    ensures Prune(t, p, k).path[t.parent[p]] == t.path[t.parent[p]]
  {
  }

  lemma DropCompressed(t: Tree, p: PageId, k: nat)
    requires Wf(t) && p in t.parent && p != ROOT && t.parent[p] in t.parent
    requires k < |t.kids[t.parent[p]]| && CompressedBut(t, {p})
    ensures CompressedBut(Prune(t, p, k), {t.parent[p]})
  {
    forall q | Mergeable(Prune(t, p, k), q) ensures q in {t.parent[p]} {
      if q != t.parent[p] { PruneMergeable(t, p, k, q); }
    }
  }

  /** A page that is the root, holds a sequence or has a child is in order itself. */
  lemma Occupied(t: Tree, p: PageId)
    requires Emptied(t, p) && (p == ROOT || t.ids[p] != [] || t.kids[p] != [])
    ensures Leafy(t)
  {
  }

  lemma RemoveDone(t: Tree, p: PageId)
    requires Emptied(t, p) && (p == ROOT || t.ids[p] != [] || t.kids[p] != [])
    ensures Wf(Settle(t, p)) && Leafy(Settle(t, p)) && View(Settle(t, p)) == View(t)
    ensures CompressedBut(t, {p}) ==> Compressed(Settle(t, p))
  {
    Occupied(t, p);
    SettleKeeps(t, p);
    SettleLeafy(t, p);
    if CompressedBut(t, {p}) { SettleCompressed(t, p); }
  }

  /** Cutting an empty leaf back to its first k tokens and hanging the sequence there. */
  lemma CutLeaf(t: Tree, p: PageId, k: nat, id: SeqId)
    requires Emptied(t, p) && p != ROOT && t.ids[p] == [] && t.kids[p] == [] && 0 < k <= |t.tokens[p]| && id !in t.where
    ensures t.parent[p] in t.parent
    ensures
      var u := Retext(t, p, t.tokens[p][..k]);
      && Wf(u) && p in u.parent && id !in u.where && Wf(AddId(u, p, id)) && Leafy(AddId(u, p, id))
      && |t.tokens[p]| <= |t.path[p]|
      && View(AddId(u, p, id)) == View(t)[id := t.path[p][..|t.path[p]| - |t.tokens[p]| + k]]
  {
    CutText(t, p, k);
    RetextKeeps(t, p, t.tokens[p][..k]);
    AttachKeeps(Retext(t, p, t.tokens[p][..k]), p, id);
  }

  /** Detaching a sequence leaves its page possibly empty. */
  lemma DetachKeeps(t: Tree, id: SeqId)
    requires Wf(t) && Leafy(t) && id in t.where
    ensures t.where[id] in t.parent
    ensures
      var u := PopId(t, t.where[id], id);
      && Emptied(u, t.where[id]) && View(u) == View(t) - {id} && id !in u.where
      && (Compressed(t) ==> CompressedBut(u, {t.where[id]}))
  {
    PopIdKeeps(t, id);
    var p := t.where[id];
    if Compressed(t) {
      forall q | Mergeable(PopId(t, p, id), q) ensures q in {p} {
        if q != p { PopIdMergeable(t, p, id, q); }
      }
    }
  }
}
