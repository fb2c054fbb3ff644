/** The paged radix tree: an object whose pages are linked, split, merged and freed in
    place, proved to behave as a plain map from sequence ids to token lists. */
module RadixTree {
  import opened Sequences
  import opened RadixPages
  import opened RadixSteps
  import opened RadixSearch
  import opened RadixCompression
  import opened RadixOperations
  import opened RadixRollback

  const PAGE_BLOCK_SIZE: nat := 64

  lemma RehangGrows(parent: map<PageId, PageId>, ks: seq<PageId>, i: nat, c: PageId)
    requires i < |ks| && ks[i] in parent
    ensures Rehang(parent, ks[..i], c)[ks[i] := c] == Rehang(parent, ks[..i + 1], c)
  {
    assert ks[..i + 1] == ks[..i] + [ks[i]];
  }

  lemma RehangKeys(parent: map<PageId, PageId>, ks: seq<PageId>, c: PageId)
    ensures Rehang(parent, ks, c).Keys == parent.Keys
  {
  }

  lemma RehomeGrows(where: map<SeqId, PageId>, xs: seq<SeqId>, i: nat, c: PageId)
    requires i < |xs| && xs[i] in where
    ensures Rehome(where, xs[..i], c)[xs[i] := c] == Rehome(where, xs[..i + 1], c)
  {
    assert xs[..i + 1] == xs[..i] + [xs[i]];
  }

  lemma RehomeLoose(where: map<SeqId, PageId>, xs: seq<SeqId>, c: PageId, loose: set<SeqId>)
    ensures Rehome(where, xs, c) - loose == Rehome(where - loose, xs, c)
  {
  }

  /** A page has exactly one child when its first child exists and has no sibling. */
  lemma OneChild(t: Tree, p: PageId)
    requires SameDomain(t) && Nested(t.parent, t.kids) && Threaded(t.firstChild, t.nextSibling, t.kids)
    requires p in t.parent
    ensures t.firstChild[p] != NULL <==> t.kids[p] != []
    ensures t.kids[p] != [] ==> t.firstChild[p] == t.kids[p][0] && t.kids[p][0] in t.parent
    ensures t.kids[p] != [] ==> (t.nextSibling[t.kids[p][0]] == NULL <==> |t.kids[p]| == 1)
  {
    if t.kids[p] != [] {
      assert Chain(t.nextSibling, t.kids[p]);
      assert ChainsAt(t.nextSibling, t.kids[p], 0);
      assert t.kids[p][0] in t.parent;
      if |t.kids[p]| > 1 { assert t.kids[p][1] in t.parent; }
    }
  }

  /** The chain position after the i-th child of p. */
  lemma NextInChain(t: Tree, p: PageId, i: nat)
    requires SameDomain(t) && Nested(t.parent, t.kids) && Threaded(t.firstChild, t.nextSibling, t.kids)
    requires p in t.parent && i < |t.kids[p]|
    ensures t.kids[p][i] in t.parent && t.kids[p][i] != NULL
    ensures t.nextSibling[t.kids[p][i]] == if i + 1 < |t.kids[p]| then t.kids[p][i + 1] else NULL
  {
    assert Chain(t.nextSibling, t.kids[p]);
    assert ChainsAt(t.nextSibling, t.kids[p], i);
    assert t.kids[p][i] in t.parent;
  }

  /** ks is a list of pages threaded by their sibling links. */
  ghost predicate IsChain(parent: map<PageId, PageId>, nextSibling: map<PageId, PageId>, ks: seq<PageId>) {
    && NULL !in ks && Chain(nextSibling, ks)
    && forall k {:trigger k in ks} :: k in ks ==> k in parent
  }

  lemma ChildChain(t: Tree, p: PageId)
    requires SameDomain(t) && Nested(t.parent, t.kids) && Threaded(t.firstChild, t.nextSibling, t.kids)
    requires p in t.parent
    ensures IsChain(t.parent, t.nextSibling, t.kids[p]) && t.firstChild[p] == First(t.kids[p])
  {
    assert Chain(t.nextSibling, t.kids[p]);
    forall k | k in t.kids[p] ensures k in t.parent { KidsAreChildren(t.parent, t.kids, p, k); }
  }

  lemma ListedIndexed(t: Tree, p: PageId)
    requires Indexed(t.ids, t.where) && p in t.ids
    ensures forall id :: id in t.ids[p] ==> id in t.where
  {
  }

  ghost predicate HeadDiffers(t: Tree, c: PageId, token: Token) {
    c in t.tokens && t.tokens[c] != [] && t.tokens[c][0] != token
  }

  /** None of the first i children of p starts with the token. */
  ghost predicate Skipped(t: Tree, p: PageId, i: nat, token: Token) {
    p in t.kids && i <= |t.kids[p]| && forall k | 0 <= k < i :: HeadDiffers(t, t.kids[p][k], token)
  }

  lemma NoneStarts(t: Tree, p: PageId, token: Token)
    requires Nested(t.parent, t.kids) && t.tokens.Keys == t.parent.Keys && p in t.parent
    requires Skipped(t, p, |t.kids[p]|, token)
    ensures NoChildStarts(t, p, token)
  {
    forall c | c in t.parent && c != ROOT && t.parent[c] == p ensures HeadDiffers(t, c, token) {
      KidsAreChildren(t.parent, t.kids, p, c);
      var k :| 0 <= k < |t.kids[p]| && t.kids[p][k] == c;
      assert HeadDiffers(t, t.kids[p][k], token);
    }
  }

  /** The page the sibling walk below p is at after i steps. */
  ghost function Cursor(t: Tree, p: PageId, i: nat): PageId
    requires p in t.kids
  {
    if i < |t.kids[p]| then t.kids[p][i] else NULL
  }

  lemma CursorStep(t: Tree, p: PageId, i: nat)
    requires SameDomain(t) && Nested(t.parent, t.kids) && Threaded(t.firstChild, t.nextSibling, t.kids)
    requires Labelled(t.parent, t.tokens, t.path) && p in t.parent
    ensures t.firstChild[p] == Cursor(t, p, 0)
    ensures Cursor(t, p, i) != NULL <==> i < |t.kids[p]|
    ensures i < |t.kids[p]| ==>
              var c := Cursor(t, p, i);
              && c in t.parent && c != ROOT && t.parent[c] == p && t.tokens[c] != []
              && t.nextSibling[c] == Cursor(t, p, i + 1)
  {
    if i < |t.kids[p]| { NextInChain(t, p, i); }
  }

  /** The walk along the text from `start` has reached the end of `page`. */
  ghost predicate Walked(t: Tree, start: PageId, text: seq<Token>, page: PageId, offset: nat)
    requires Labelled(t.parent, t.tokens, t.path) && start in t.parent
  {
    && page in t.parent && offset <= |text|
    && Under(t, start, page)
    && t.path[page] == t.path[start] + text[..offset]
  }

  lemma Spliced(a: seq<Token>, text: seq<Token>, o: nat, p: seq<Token>, c: seq<Token>, n: nat)
    requires o + n <= |text| && n <= |c| && c[..n] == text[o..o + n]
    requires p == a + text[..o]
    ensures a + text[..o + n] == (p + c)[..|p| + n]
    ensures n == |c| ==> p + c == a + text[..o + n]
  {
    assert text[..o + n] == text[..o] + text[o..o + n];
    assert (p + c)[..|p| + n] == p + c[..n];
  }

  /** Stepping into a child that agrees with the next n tokens of the text. */
  lemma StepDown(t: Tree, start: PageId, page: PageId, child: PageId, text: seq<Token>, offset: nat, n: nat)
    requires SameDomain(t) && Labelled(t.parent, t.tokens, t.path) && start in t.parent
    requires Walked(t, start, text, page, offset)
    requires child in t.parent && child != ROOT && t.parent[child] == page && t.tokens[child] != []
    requires offset < |text| && t.tokens[child][0] == text[offset]
    requires offset + n <= |text| && n <= |t.tokens[child]| && t.tokens[child][..n] == text[offset..offset + n]
    requires n < |t.tokens[child]| && offset + n < |text| ==> t.tokens[child][n] != text[offset + n]
    ensures 0 < n
    ensures n == |t.tokens[child]| ==> Walked(t, start, text, child, offset + n)
    ensures n < |t.tokens[child]| ==> Stops(t, start, text, child, offset + n, n)
  {
    ParentDiffers(t.parent, t.tokens, t.path, child);
    UnderExtends(t, start, page);
    assert t.path[child] == t.path[page] + t.tokens[child];
    Spliced(t.path[start], text, offset, t.path[page], t.tokens[child], n);
  }

  lemma StopsHere(t: Tree, start: PageId, page: PageId, text: seq<Token>, offset: nat)
    requires SameDomain(t) && Labelled(t.parent, t.tokens, t.path) && start in t.parent
    requires Walked(t, start, text, page, offset)
    requires offset < |text| ==> NoChildStarts(t, page, text[offset])
    ensures Stops(t, start, text, page, offset, |t.tokens[page]|)
  {
    PathCoversPage(t, page);
  }

  lemma PathCoversPage(t: Tree, page: PageId)
    requires Labelled(t.parent, t.tokens, t.path) && page in t.parent
    ensures |t.tokens[page]| <= |t.path[page]|
  {
    if page != ROOT { ParentDiffers(t.parent, t.tokens, t.path, page); }
  }

  lemma {:induction false} WithoutAt(s: seq<SeqId>, id: SeqId, i: nat)
    requires i < |s| && s[i] == id && forall k :: 0 <= k < i ==> s[k] != id
    ensures Without(s, id) == s[..i] + s[i + 1..]
  {
    if i > 0 {
      WithoutAt(s[1..], id, i - 1);
      assert s[1..][..i - 1] == s[1..i] && s[1..][i..] == s[i + 1..];
      assert s[..i] == [s[0]] + s[1..i];
    }
  }

  /** What a merge relies on about page p and its only child c. */
  ghost predicate CanAbsorb(t: Tree, p: PageId, c: PageId) {
    && SameDomain(t) && p in t.parent && p != ROOT
    && t.kids[p] == [c] && t.firstChild[p] == c
    && c in t.parent && c != p && c != ROOT
    && IsChain(t.parent, t.nextSibling, t.kids[c]) && t.firstChild[c] == First(t.kids[c])
    && forall id :: id in t.ids[c] ==> id in t.where
  }

  lemma MergeReady(t: Tree, p: PageId)
    requires Wf(t) && Mergeable(t, p)
    ensures p in t.firstChild && CanAbsorb(t, p, t.firstChild[p])
    ensures Wf(Fuse(t, p))
  {
    FuseKeeps(t, p);
    RootNeverMerges(t);
    OneChild(t, p);
    var c := t.kids[p][0];
    assert c in t.kids[p];
    KidDiffers(t.parent, t.kids, t.tokens, t.path, p, c);
    ChildChain(t, c);
    ListedIndexed(t, c);
  }

  /** What a division relies on about page p. */
  ghost predicate CanDivide(t: Tree, p: PageId, k: nat) {
    && SameDomain(t) && p in t.parent && p != ROOT && t.parent[p] in t.parent
    && 0 < k < |t.tokens[p]|
    && IsChain(t.parent, t.nextSibling, t.kids[p]) && t.firstChild[p] == First(t.kids[p])
    && forall id :: id in t.ids[p] ==> id in t.where
  }

  lemma DivideReady(t: Tree, p: PageId, k: nat)
    requires Wf(t) && p in t.parent && p != ROOT && 0 < k < |t.tokens[p]|
    ensures CanDivide(t, p, k)
  {
    ChildChain(t, p);
    ListedIndexed(t, p);
  }

  /** Where the two merges of a split may look. */
  lemma SplitReady(t: Tree, p: PageId, k: nat, c: PageId)
    requires Wf(t) && p in t.parent && p != ROOT && c !in t.parent && c != NULL && 0 < k < |t.tokens[p]|
    ensures SameDomain(Divide(t, p, k, c)) && c in Divide(t, p, k, c).parent
    ensures t.parent[p] in t.parent && t.parent[p] != NULL
    ensures
      var e := Settle(Divide(t, p, k, c), c);
      p in e.parent && e.parent[p] == t.parent[p] && t.parent[p] in e.parent
  {
    SplitLower(t, p, k, c);
    LowerShape(t, p, k, c);
    var e := Settle(Divide(t, p, k, c), c);
    ParentDiffers(e.parent, e.tokens, e.path, p);
  }

  /** What pruning page p relies on. */
  ghost predicate CanPrune(t: Tree, p: PageId) {
    && SameDomain(t) && p in t.parent && p != ROOT && t.ids[p] == []
    && t.parent[p] in t.parent && t.parent[p] != p && p in t.kids[t.parent[p]]
    && IsChain(t.parent, t.nextSibling, t.kids[t.parent[p]])
    && t.firstChild[t.parent[p]] == First(t.kids[t.parent[p]])
  }

  lemma DropReady(t: Tree, p: PageId)
    requires Wf(t) && p in t.parent && p != ROOT && t.ids[p] == []
    ensures CanPrune(t, p)
  {
    ParentDiffers(t.parent, t.tokens, t.path, p);
    ChildChain(t, t.parent[p]);
  }

  lemma DetachReady(t: Tree, id: SeqId)
    requires Wf(t) && id in t.where
    ensures t.where[id] in t.parent && t.where[id] in t.ids && id in t.ids[t.where[id]]
    ensures t.where[id] in t.path && id in View(t) && View(t)[id] == t.path[t.where[id]]
  {
  }

  lemma EmptiedLinks(t: Tree, p: PageId)
    requires Emptied(t, p)
    ensures SameDomain(t) && p in t.parent && p in t.path
    ensures t.parent[p] == NULL <==> p == ROOT
    ensures t.firstChild[p] == NULL <==> t.kids[p] == []
  {
    OneChild(t, p);
  }

  /** A page and the page above it. */
  lemma PageAbove(t: Tree, p: PageId)
    requires Wf(t) && p in t.parent
    ensures p in t.tokens && p in t.path && p in t.ids && p != NULL
    ensures t.parent[p] == NULL <==> p == ROOT
    ensures p == ROOT ==> t.path[p] == [] && t.tokens[p] == []
    ensures p != ROOT ==>
              && t.parent[p] in t.parent && t.parent[p] in t.path && 0 < |t.tokens[p]|
              && t.path[p] == t.path[t.parent[p]] + t.tokens[p]
  {
  }

  /** Page p spells the first part of `base`, and the offset lies inside p or at its end. */
  ghost predicate Reaches(t: Tree, p: PageId, base: seq<Token>, offset: nat) {
    && p in t.parent && p != ROOT && p in t.tokens && p in t.path && p in t.ids
    && t.path[p] <= base
    && |t.path[p]| - |t.tokens[p]| < offset <= |t.path[p]| && |t.tokens[p]| <= |t.path[p]|
  }

  lemma ReachesText(t: Tree, p: PageId, base: seq<Token>, offset: nat)
    requires Wf(t) && Reaches(t, p, base, offset)
    ensures t.parent[p] in t.parent && t.parent[p] in t.path
    ensures offset <= |base| && t.path[p][..offset] == base[..offset]
    ensures
      var k := offset - (|t.path[p]| - |t.tokens[p]|);
      0 < k <= |t.tokens[p]| && t.path[t.parent[p]] + t.tokens[p][..k] == base[..offset]
  {
    PageAbove(t, p);
  }

  lemma AttachLeafy(t: Tree, p: PageId, id: SeqId)
    requires Wf(t) && Leafy(t) && p in t.parent
    ensures LeafyExcept(t, p)
  {
  }

  /** What the writer looks at on the page it has reached. */
  lemma GrowingPage(t: Tree, base: seq<Token>, text: seq<Token>, p: PageId, offset: nat)
    requires Growing(t, base, text, p, offset)
    ensures SameDomain(t) && p in t.parent && offset <= |text|
    ensures t.firstChild[p] == NULL <==> t.kids[p] == []
    ensures |t.tokens[p]| <= Capacity(p) <= PAGE_CAPACITY
  {
    OneChild(t, p);
  }

  lemma GrowingWf(t: Tree, base: seq<Token>, text: seq<Token>, p: PageId, offset: nat)
    requires Growing(t, base, text, p, offset)
    ensures Wf(t) && SameDomain(t) && p in t.parent
  {
  }

  lemma GrowingAbove(t: Tree, base: seq<Token>, text: seq<Token>, p: PageId, offset: nat)
    requires Growing(t, base, text, p, offset) && Roomy(t, p)
    ensures t.parent[p] in t.parent
  {
    if p != ROOT { ParentDiffers(t.parent, t.tokens, t.path, p); }
  }

  lemma GraftPages(t: Tree, p: PageId, c: PageId, text: seq<Token>)
    requires SameDomain(t) && p in t.parent && c !in t.parent
    ensures t.parent.Keys <= Graft(t, p, c, text).parent.Keys
  {
  }

  lemma FullPage(t: Tree, p: PageId)
    requires p in t.tokens
    ensures |t.tokens[p]| == PAGE_CAPACITY ==> !Roomy(t, p)
  {
  }

  lemma SameMergeable(t: Tree)
    ensures NoNewMergeable(t, t)
  {
  }

  lemma NoNewTwice(t: Tree, u: Tree, v: Tree, p: PageId)
    requires NoNewMergeable(t, u) && NoNewMergeable(u, v)
    ensures NoNewMergeable(t, v) && (!Mergeable(u, p) ==> !Mergeable(v, p))
  {
    hide Mergeable;
  }

  lemma EmptiedAbove(t: Tree, p: PageId)
    requires Emptied(t, p)
    ensures SameDomain(t) && p in t.parent
    ensures p == ROOT ==> t.path[p] == [] && t.tokens[p] == []
    ensures t.firstChild[p] == NULL <==> t.kids[p] == []
    ensures p != ROOT ==>
              && t.parent[p] in t.parent && 0 < |t.tokens[p]| && t.path[t.parent[p]] <= t.path[p]
              && |t.path[p]| == |t.path[t.parent[p]]| + |t.tokens[p]|
  {
    OneChild(t, p);
    PageAbove(t, p);
  }

  lemma DomainOf(t: Tree)
    requires Wf(t)
    ensures SameDomain(t)
  {
  }

  lemma EmptiedWf(t: Tree, p: PageId)
    requires Emptied(t, p)
    ensures Wf(t) && SameDomain(t) && p in t.parent
  {
  }

  lemma NotYetRoot(t: Tree, p: PageId, left: nat)
    requires Wf(t) && p in t.parent && p != ROOT && left < |t.path[p]| && |t.tokens[p]| <= left
    ensures t.parent[p] in t.parent && t.parent[p] != ROOT
  {
    ParentDiffers(t.parent, t.tokens, t.path, p);
  }

  lemma StillNeeded(t: Tree, p: PageId, above: PageId)
    requires Emptied(t, p) && (t.ids[p] != [] || t.kids[p] != []) && above in t.parent
    ensures Emptied(t, above)
  {
  }

  /** `offset` is the longest common prefix of the text with any stored sequence, and when
      it is positive `ids` lists exactly the sequences that attain it, each once. */
  ghost predicate IsLongestMatch(stored: map<SeqId, seq<Token>>, text: seq<Token>, offset: nat, ids: seq<SeqId>) {
    && offset <= |text| && NoRepeats(ids)
    && (forall id, k: nat :: id in stored && Share(stored[id], text, k) ==> k <= offset)
    && (offset == 0 ==> ids == [])
    && (offset > 0 ==> ids != [] && forall id :: id in ids <==> id in stored && Share(stored[id], text, offset))
  }

  lemma MatchMeans(stored: map<SeqId, seq<Token>>, text: seq<Token>, offset: nat, ids: seq<SeqId>)
    requires IsLongestMatch(stored, text, offset, ids)
    ensures offset <= |text| && NoRepeats(ids) && (ids == [] <==> offset == 0)
    ensures forall id :: id in ids ==>
              id in stored && offset <= |stored[id]| && stored[id][..offset] == text[..offset]
    ensures forall id :: id in stored && 0 < offset <= |stored[id]| && stored[id][..offset] == text[..offset] ==>
              id in ids
    ensures forall id, k: nat {:trigger stored[id][..k]} ::
              id in stored && offset < k <= |text| && k <= |stored[id]| ==> stored[id][..k] != text[..k]
  {
    forall id, k: nat | id in stored && offset < k <= |text| && k <= |stored[id]| ensures stored[id][..k] != text[..k] {
      assert !Share(stored[id], text, k);
    }
  }

  lemma MatchReady(t: Tree)
    requires Wf(t)
    ensures ROOT in t.parent && SameDomain(t) && Labelled(t.parent, t.tokens, t.path)
  {
  }

  lemma MatchEnds(t: Tree, text: seq<Token>, page: PageId, offset: nat, inPage: nat)
    requires SameDomain(t) && Labelled(t.parent, t.tokens, t.path)
    requires Stops(t, ROOT, text, page, offset, inPage)
    ensures page in t.parent && offset <= |text|
  {
  }

  lemma UnderIsDistinct(t: Tree, page: PageId, out: seq<SeqId>)
    requires Labelled(t.parent, t.tokens, t.path) && ListsUnder(t, page, out)
    ensures NoRepeats(out)
  {
  }

  /** Every pool page that is not free is a page of the tree. */
  lemma PoolCount(used: set<PageId>, free: seq<PageId>, size: nat)
    requires PoolOk(used, free, size) && ROOT in used
    ensures |free| == size - (|used| - 1)
  {
    ElementsSize(free);
    RangeSize(size);
    assert |used - {ROOT}| == |used| - 1;
    assert (used - {ROOT}) * Elements(free) == {};
    assert |used - {ROOT} + Elements(free)| == |used - {ROOT}| + |Elements(free)|;
  }

  lemma {:induction false} ElementsSize(s: seq<PageId>)
    requires NoRepeats(s)
    ensures |Elements(s)| == |s|
  {
    if s != [] {
      var rest := s[..|s| - 1];
      assert s == rest + [s[|s| - 1]];
      ElementsSize(rest);
      assert Elements(s) == Elements(rest) + {s[|s| - 1]};
      assert s[|s| - 1] !in rest;
    }
  }

  lemma {:induction false} RangeSize(size: nat)
    ensures |PoolRange(size)| == size
  {
    if size > 0 {
      RangeSize(size - 1);
      assert PoolRange(size) == PoolRange(size - 1) + {size - 1};
    } else {
      assert PoolRange(0) == {};
    }
  }

  lemma BelowRoot(t: Tree, p: PageId, base: seq<Token>, offset: nat)
    requires Reaches(t, p, base, offset)
    ensures p != ROOT
  {
  }

  lemma Reput(m: map<SeqId, seq<Token>>, id: SeqId, text: seq<Token>)
    ensures (m - {id})[id := text] == m[id := text]
  {
  }

  lemma StopsPage(t: Tree, start: PageId, text: seq<Token>, page: PageId, offset: nat, inPage: nat)
    requires SameDomain(t) && Labelled(t.parent, t.tokens, t.path) && start in t.parent
    requires Stops(t, start, text, page, offset, inPage)
    ensures page in t.parent && inPage <= |t.tokens[page]|
    ensures inPage < |t.tokens[page]| ==> 0 < inPage && page != ROOT
  {
  }

  lemma MoreAllowed(t: Tree, p: PageId, q: PageId)
    ensures CompressedBut(t, {p}) ==> CompressedBut(t, {p, q})
  {
  }

  /** While the text was written, no page became mergeable; the page where the writing
      began is either left behind with a new child, or holds the end of the text. */
  lemma WrittenCompressed(t: Tree, u: Tree, start: PageId, cut: PageId, page: PageId)
    requires NoNewMergeable(t, u) && (page == cut || !Mergeable(u, cut))
    ensures CompressedBut(t, {start, cut}) ==> CompressedBut(u, {start, page})
  {
  }

  lemma LooseOut(seq2page: map<SeqId, PageId>, id: SeqId)
    ensures seq2page - {id} == (seq2page - {}) - {id} && seq2page - {} == seq2page
  {
  }

  lemma LooseEntry(seq2page: map<SeqId, PageId>, loose: set<SeqId>, id: SeqId, page: PageId)
    ensures seq2page[id := page] - (loose - {id}) == (seq2page - loose)[id := page]
  {
  }

  lemma Overwrite<V>(m: map<PageId, V>, p: PageId, v: V, w: V)
    ensures m[p := v][p := w] == m[p := w]
  {
  }

  lemma RehangFresh(parent: map<PageId, PageId>, ks: seq<PageId>, c: PageId, p: PageId)
    requires c !in ks
    ensures Rehang(parent[c := p], ks, c) == Rehang(parent, ks, c)[c := p]
  {
  }

  lemma ChainFresh(parent: map<PageId, PageId>, nextSibling: map<PageId, PageId>, ks: seq<PageId>, c: PageId,
                   p: PageId, q: PageId)
    requires IsChain(parent, nextSibling, ks) && c !in parent
    ensures c !in ks && IsChain(parent[c := p], nextSibling[c := q], ks)
  {
    forall k | k in ks ensures k != c { assert k in parent; }
    ChainFrame(nextSibling, nextSibling[c := q], ks);
  }

  ghost function Elements(s: seq<PageId>): set<PageId> {
    set x | x in s
  }

  predicate IsPoolIndex(p: PageId, size: nat) {
    0 <= p < size
  }

  ghost function PoolRange(size: nat): set<PageId> {
    set p: PageId | 0 <= p < size && IsPoolIndex(p, size)
  }

  /** Used pages and free pages partition the pool, and no page is free twice. */
  ghost predicate PoolOk(used: set<PageId>, free: seq<PageId>, size: nat) {
    && NoRepeats(free)
    && used * Elements(free) == {}
    && used - {ROOT} + Elements(free) == PoolRange(size)
  }

  lemma FreshPool(size: nat)
    ensures PoolOk({ROOT}, seq(size, i => i), size)
  {
    var free: seq<PageId> := seq(size, i => i);
    forall p | IsPoolIndex(p, size) ensures p in free { assert free[p] == p; }
    assert Elements(free) == PoolRange(size);
  }

  lemma PoolGrows(used: set<PageId>, free: seq<PageId>, size: nat)
    requires PoolOk(used, free, size)
    ensures PoolOk(used, free + [size], size + 1)
  {
    assert Elements(free + [size]) == Elements(free) + {size};
    assert PoolRange(size + 1) == PoolRange(size) + {size};
    assert size !in used - {ROOT} + Elements(free);
    assert used * Elements(free + [size]) == {};
  }

  lemma PoolTake(used: set<PageId>, free: seq<PageId>, size: nat)
    requires PoolOk(used, free, size) && free != []
    ensures
      var p := free[|free| - 1];
      p !in used && 0 <= p < size && PoolOk(used + {p}, free[..|free| - 1], size)
  {
    var p := free[|free| - 1];
    var rest := free[..|free| - 1];
    assert free == rest + [p];
    assert p !in rest;
    assert Elements(free) == Elements(rest) + {p};
    assert p in Elements(free);
    assert p in PoolRange(size);
    assert (used + {p}) * Elements(rest) == {};
    assert used + {p} - {ROOT} + Elements(rest) == used - {ROOT} + Elements(free);
  }

  lemma PoolReturn(used: set<PageId>, free: seq<PageId>, size: nat, p: PageId)
    requires PoolOk(used, free, size) && p in used && p != ROOT
    ensures PoolOk(used - {p}, free + [p], size)
  {
    assert p !in free by { assert p !in used * Elements(free); }
    assert Elements(free + [p]) == Elements(free) + {p};
    assert (used - {p}) * Elements(free + [p]) == {};
    assert used - {p} - {ROOT} + Elements(free + [p]) == used - {ROOT} + Elements(free);
  }

  class PagedRadixTree {
    var parent: map<PageId, PageId>
    var firstChild: map<PageId, PageId>
    var nextSibling: map<PageId, PageId>
    var seqIds: map<PageId, seq<SeqId>>
    var tokens: map<PageId, seq<Token>>
    /** The map from sequence to the page it ends in. */
    var seq2page: map<SeqId, PageId>
    /** The indices of free pages, used as a stack, and the number of pages allocated. */
    var freePages: seq<PageId>
    var poolSize: nat

    ghost var kids: map<PageId, seq<PageId>>
    ghost var path: map<PageId, seq<Token>>
    /** Sequences popped from their page whose index entry is still to be rewritten. */
    ghost var loose: set<SeqId>

    ghost function State(): Tree
      reads this
    {
      Tree(parent, firstChild, nextSibling, seqIds, tokens, seq2page - loose, kids, path)
    }

    ghost predicate Consistent()
      reads this
    {
      Wf(State()) && PoolOk(parent.Keys, freePages, poolSize)
    }

    ghost predicate Valid()
      reads this
    {
      Consistent() && loose == {} && Leafy(State())
    }

    /** The tokens of every stored sequence. */
    ghost function Contents(): map<SeqId, seq<Token>>
      reads this
    {
      View(State())
    }

    constructor ()
      ensures Valid()
      ensures Contents() == map[]
      ensures Compressed(State())
      ensures |freePages| == poolSize == 64
    {
      parent := map[ROOT := NULL];
      firstChild := map[ROOT := NULL];
      nextSibling := map[ROOT := NULL];
      seqIds := map[ROOT := []];
      tokens := map[ROOT := []];
      seq2page := map[];
      kids := map[ROOT := []];
      path := map[ROOT := []];
      loose := {};
      freePages := seq(PAGE_BLOCK_SIZE, i => i);
      poolSize := PAGE_BLOCK_SIZE;
      new;
      FreshPool(PAGE_BLOCK_SIZE);
    }

    // -------------------------------------------------------------- page pool

    /** Add a block of pages to the pool. */
    method NewPageBlock()
      requires PoolOk(parent.Keys, freePages, poolSize)
      modifies this`freePages, this`poolSize
      ensures PoolOk(parent.Keys, freePages, poolSize)
      ensures poolSize == old(poolSize) + PAGE_BLOCK_SIZE
      ensures |freePages| == |old(freePages)| + PAGE_BLOCK_SIZE
    {
      var offset := poolSize;
      var i := 0;
      while i < PAGE_BLOCK_SIZE
        invariant i <= PAGE_BLOCK_SIZE && poolSize == offset + i
        invariant |freePages| == |old(freePages)| + i
        invariant PoolOk(parent.Keys, freePages, poolSize)
      {
        PoolGrows(parent.Keys, freePages, poolSize);
        freePages := freePages + [i + offset];
        poolSize := poolSize + 1;
        i := i + 1;
      }
    }

    /** Take a page from the pool and clear its fields. */
    method Allocate() returns (page: PageId)
      requires PoolOk(parent.Keys, freePages, poolSize)
      modifies this`freePages, this`poolSize, this`parent, this`firstChild, this`nextSibling, this`seqIds, this`tokens
      ensures PoolOk(parent.Keys, freePages, poolSize)
      ensures page !in old(parent) && page != NULL && page != ROOT
      ensures poolSize == old(poolSize) + if old(freePages) == [] then 64 else 0
      ensures |freePages| + 1 == |old(freePages)| + if old(freePages) == [] then 64 else 0
      ensures parent == old(parent)[page := NULL] && firstChild == old(firstChild)[page := NULL]
      ensures nextSibling == old(nextSibling)[page := NULL]
      ensures seqIds == old(seqIds)[page := []] && tokens == old(tokens)[page := []]
    {
      if freePages == [] {
        NewPageBlock();
      }
      PoolTake(parent.Keys, freePages, poolSize);
      page := freePages[|freePages| - 1];
      freePages := freePages[..|freePages| - 1];
      assert parent[page := NULL].Keys == parent.Keys + {page};
      parent := parent[page := NULL];
      firstChild := firstChild[page := NULL];
      nextSibling := nextSibling[page := NULL];
      seqIds := seqIds[page := []];
      tokens := tokens[page := []];
    }

    /** Give a page that holds no sequence back to the pool. */
    method Free(page: PageId)
      requires PoolOk(parent.Keys, freePages, poolSize) && page in parent && page != ROOT
      requires page in seqIds && seqIds[page] == []
      modifies this`freePages, this`parent, this`firstChild, this`nextSibling, this`seqIds, this`tokens
      ensures PoolOk(parent.Keys, freePages, poolSize)
      ensures parent == old(parent) - {page} && firstChild == old(firstChild) - {page}
      ensures nextSibling == old(nextSibling) - {page}
      ensures seqIds == old(seqIds) - {page} && tokens == old(tokens) - {page}
      ensures freePages == old(freePages) + [page]
    {
      PoolReturn(parent.Keys, freePages, poolSize, page);
      freePages := freePages + [page];
      assert (parent - {page}).Keys == parent.Keys - {page};
      parent := parent - {page};
      firstChild := firstChild - {page};
      nextSibling := nextSibling - {page};
      seqIds := seqIds - {page};
      tokens := tokens - {page};
    }

    // -------------------------------------------------------------- one page

    /** Remove a sequence id from the list of a page. */
    method PopSequence(page: PageId, id: SeqId)
      requires page in seqIds && id in seqIds[page]
      modifies this`seqIds
      ensures seqIds == old(seqIds)[page := Without(old(seqIds[page]), id)]
    {
      var ids := seqIds[page];
      var i := 0;
      while ids[i] != id
        invariant i < |ids| && forall k :: 0 <= k < i ==> ids[k] != id
        decreases |ids| - i
      {
        ghost var j :| 0 <= j < |ids| && ids[j] == id;
        i := i + 1;
      }
      WithoutAt(ids, id, i);
      seqIds := seqIds[page := ids[..i] + ids[i + 1..]];
    }

    /** Whether a page can be merged with its child. */
    method IsMergeable(page: PageId) returns (b: bool)
      requires Wf(State()) && page in parent
      ensures b == Mergeable(State(), page)
    {
      OneChild(State(), page);
      if seqIds[page] != [] {
        return false;
      }
      if firstChild[page] == NULL {
        return false;
      }
      if nextSibling[firstChild[page]] != NULL {
        return false;
      }
      if |tokens[page]| + |tokens[firstChild[page]]| > Capacity(page) {
        return false;
      }
      return true;
    }

    /** The number of tokens of a page that agree with the text from position `at`. */
    method MatchInPage(page: PageId, text: seq<Token>, at: nat) returns (n: nat)
      requires page in tokens && at <= |text|
      ensures n <= |tokens[page]| && at + n <= |text|
      ensures tokens[page][..n] == text[at..at + n]
      ensures n < |tokens[page]| && at + n < |text| ==> tokens[page][n] != text[at + n]
    {
      var m := if |tokens[page]| < |text| - at then |tokens[page]| else |text| - at;
      n := 0;
      while n < m
        invariant n <= m
        invariant tokens[page][..n] == text[at..at + n]
      {
        if tokens[page][n] != text[at + n] {
          return;
        }
        assert tokens[page][..n + 1] == tokens[page][..n] + [tokens[page][n]];
        assert text[at..at + (n + 1)] == text[at..at + n] + [text[at + n]];
        n := n + 1;
      }
    }

    /** The child of a page that starts with a token, or NULL. */
    method FindChild(page: PageId, token: Token) returns (child: PageId)
      requires Wf(State()) && page in parent
      ensures child != NULL ==> child in parent && child != ROOT && parent[child] == page
                                && tokens[child] != [] && tokens[child][0] == token
      ensures child == NULL ==> NoChildStarts(State(), page, token)
    {
      hide Nested, Threaded, Labelled, Indexed, NoChildStarts;
      ghost var t := State();
      child := firstChild[page];
      ghost var i := 0;
      CursorStep(t, page, 0);
      while child != NULL
        invariant child == Cursor(t, page, i) && i <= |t.kids[page]|
        invariant Skipped(t, page, i, token)
        decreases |t.kids[page]| - i
      {
        CursorStep(t, page, i);
        if tokens[child][0] == token {
          return;
        }
        child := nextSibling[child];
        i := i + 1;
      }
      CursorStep(t, page, i);
      NoneStarts(t, page, token);
    }

    /** Walk down from a page along the text, stopping at the first mismatch. */
    method MatchSequence(start: PageId, text: seq<Token>) returns (page: PageId, offset: nat, inPage: nat)
      requires Wf(State()) && start in parent
      ensures Stops(State(), start, text, page, offset, inPage)
    {
      hide Stops, Nested, Threaded, Labelled, Indexed;
      ghost var t := State();
      page, offset := start, 0;
      while offset < |text|
        invariant Walked(t, start, text, page, offset)
        decreases |text| - offset
      {
        var child := FindChild(page, text[offset]);
        if child != NULL {
          var n := MatchInPage(child, text, offset);
          StepDown(t, start, page, child, text, offset, n);
          offset := offset + n;
          if n < |tokens[child]| {
            return child, offset, n;
          }
          page := child;
        } else {
          StopsHere(t, start, page, text, offset);
          return page, offset, |tokens[page]|;
        }
      }
      StopsHere(t, start, page, text, offset);
      return page, |text|, |tokens[page]|;
    }

    // -------------------------------------------------------------- merge and split

    /** Merge a page with its only child and free the child. */
    method MergePage(page: PageId)
      requires Consistent() && Mergeable(State(), page)
      modifies this
      ensures Consistent() && loose == old(loose)
      ensures old(SameDomain(State())) && State() == Fuse(old(State()), page)
    {
      ghost var t := State();
      MergeReady(t, page);
      hide Wf, CanAbsorb, Mergeable, Fuse;
      AbsorbChild(page, firstChild[page]);
    }

    /** Move the text, the children and the sequences of the child into the page, and
        free the child. */
    method AbsorbChild(page: PageId, child: PageId)
      requires CanAbsorb(State(), page, child) && PoolOk(parent.Keys, freePages, poolSize)
      modifies this
      ensures PoolOk(parent.Keys, freePages, poolSize) && loose == old(loose)
      ensures old(CanAbsorb(State(), page, child)) && State() == Fuse(old(State()), page)
    {
      ghost var t := State();
      ghost var kids', path' := kids[page := kids[child]] - {child}, path[page := path[child]] - {child};
      RehomeLoose(seq2page, t.ids[child], page, loose);
      hide SameDomain, Rehang, Rehome, PoolOk, IsChain, First;
      AbsorbFields(kids[child], page, child);
      kids, path := kids', path';
    }

    method AbsorbFields(ghost ks: seq<PageId>, page: PageId, child: PageId)
      requires page in parent && child in parent && child != page && child != ROOT
      requires page in tokens && child in tokens && page in firstChild && child in firstChild
      requires page in seqIds && child in seqIds
      requires PoolOk(parent.Keys, freePages, poolSize)
      requires IsChain(parent, nextSibling, ks) && firstChild[child] == First(ks)
      requires forall id :: id in seqIds[child] ==> id in seq2page
      modifies this`parent, this`firstChild, this`nextSibling, this`seqIds, this`tokens, this`seq2page, this`freePages
      ensures PoolOk(parent.Keys, freePages, poolSize)
      ensures parent == Rehang(old(parent), ks, page) - {child}
      ensures firstChild == old(firstChild)[page := old(firstChild[child])] - {child}
      ensures nextSibling == old(nextSibling) - {child}
      ensures seqIds == old(seqIds)[page := old(seqIds[child])] - {child}
      ensures tokens == old(tokens)[page := old(tokens[page]) + old(tokens[child])] - {child}
      ensures seq2page == Rehome(old(seq2page), old(seqIds[child]), page)
    {
      hide Chain, Rehang, Rehome, PoolOk, IsChain;
      AppendTokens(page, child);
      firstChild := firstChild[page := firstChild[child]];
      Reparent(ks, firstChild[page], page);
      seqIds := seqIds[page := seqIds[child]];
      RehomeAll(page);
      seqIds := seqIds[child := []];
      RehangKeys(old(parent), ks, page);
      Free(child);
    }

    /** Copy the tokens of the child behind those of the page. */
    method AppendTokens(page: PageId, child: PageId)
      requires page in tokens && child in tokens && page != child
      modifies this`tokens
      ensures tokens == old(tokens)[page := old(tokens[page]) + old(tokens[child])]
    {
      var i := 0;
      assert old(tokens[page]) + old(tokens[child])[..0] == tokens[page];
      while i < |tokens[child]|
        invariant child in tokens && tokens[child] == old(tokens[child]) && i <= |tokens[child]|
        invariant page in tokens && tokens[page] == old(tokens[page]) + old(tokens[child])[..i]
        invariant tokens == old(tokens)[page := old(tokens[page]) + old(tokens[child])[..i]]
      {
        assert old(tokens[page]) + old(tokens[child])[..i + 1] == tokens[page] + [tokens[child][i]];
        tokens := tokens[page := tokens[page] + [tokens[child][i]]];
        i := i + 1;
      }
      assert old(tokens[child])[..i] == old(tokens[child]);
    }

    /** Hang the chain of pages that starts at `from` under another page. */
    method Reparent(ghost ks: seq<PageId>, from: PageId, to: PageId)
      requires IsChain(parent, nextSibling, ks) && from == First(ks)
      modifies this`parent
      ensures parent == Rehang(old(parent), ks, to)
    {
      var p := from;
      ghost var i := 0;
      assert Rehang(parent, ks[..0], to) == parent;
      if ks != [] { assert ks[0] in ks; }
      while p != NULL
        invariant i <= |ks| && p == if i < |ks| then ks[i] else NULL
        invariant parent == Rehang(old(parent), ks[..i], to)
        decreases |ks| - i
      {
        assert ks[i] in ks && ChainsAt(nextSibling, ks, i);
        RehangGrows(old(parent), ks, i, to);
        parent := parent[p := to];
        p := nextSibling[p];
        i := i + 1;
      }
      assert ks[..i] == ks by {
        assert i < |ks| ==> p in ks;
      }
    }

    /** Point every sequence listed in a page at that page. */
    method RehomeAll(page: PageId)
      requires page in seqIds && forall id :: id in seqIds[page] ==> id in seq2page
      modifies this`seq2page
      ensures seq2page == Rehome(old(seq2page), seqIds[page], page)
    {
      var ids := seqIds[page];
      var i := 0;
      assert Rehome(seq2page, ids[..0], page) == seq2page;
      while i < |ids|
        invariant i <= |ids|
        invariant seq2page == Rehome(old(seq2page), ids[..i], page)
      {
        var id := ids[i];
        assert id in old(seqIds[page]);
        RehomeGrows(old(seq2page), ids, i, page);
        seq2page := seq2page[id := page];
        i := i + 1;
      }
      assert ids[..i] == ids;
    }

    /** Split a page at a position. The page that ends there is returned: it differs from
        the given one when that was merged into its parent. */
    method SplitPage(page: PageId, offset: nat) returns (cut: PageId, ghost child: PageId)
      requires Consistent() && page in parent && page != ROOT && 0 < offset < |tokens[page]|
      modifies this
      ensures Consistent() && loose == old(loose)
      ensures child !in old(parent) && child != NULL
      ensures old(Wf(State())) && State() == Split(old(State()), page, offset, child)
      ensures cut == CutPage(old(State()), page, offset, child)
    {
      ghost var t := State();
      DivideReady(t, page, offset);
      hide Wf, CanDivide, Divide, Settle, PoolOk;
      var lower := DividePage(page, offset);
      child := lower;
      SplitLower(t, page, offset, child);
      SplitKeeps(t, page, offset, child);
      SplitReady(t, page, offset, child);
      var merged := SettlePage(lower);
      cut := page;
      var above := parent[page];
      if above != NULL {
        merged := SettlePage(above);
        if merged {
          cut := above;
        }
      }
    }

    /** Merge a page with its child if that is possible. */
    method SettlePage(page: PageId) returns (merged: bool)
      requires Consistent() && page in parent
      modifies this
      ensures Consistent() && loose == old(loose)
      ensures old(SameDomain(State())) && State() == Settle(old(State()), page)
      ensures merged <==> Mergeable(old(State()), page)
    {
      hide Nested, Threaded, Labelled, Indexed, Fuse, PoolOk, Mergeable;
      merged := IsMergeable(page);
      if merged {
        MergePage(page);
      }
    }

    /** Move everything behind the first `offset` tokens of a page to a new child page. */
    method DividePage(page: PageId, offset: nat) returns (child: PageId)
      requires CanDivide(State(), page, offset) && PoolOk(parent.Keys, freePages, poolSize)
      modifies this
      ensures PoolOk(parent.Keys, freePages, poolSize) && loose == old(loose)
      ensures child !in old(parent) && child != NULL
      ensures old(CanDivide(State(), page, offset)) && State() == Divide(old(State()), page, offset, child)
    {
      ghost var t := State();
      ghost var ks, whole, cut := kids[page], path[page], path[parent[page]] + tokens[page][..offset];
      hide Rehang, Rehome, PoolOk, IsChain, First;
      child := DivideFields(ks, page, offset);
      kids := kids[child := ks][page := [child]];
      path := path[child := whole][page := cut];
      RehomeLoose(old(seq2page), t.ids[page], child, loose);
    }

    method DivideFields(ghost ks: seq<PageId>, page: PageId, offset: nat) returns (child: PageId)
      requires page in parent && page != ROOT && page in firstChild && page in seqIds && page in tokens
      requires offset < |tokens[page]| && PoolOk(parent.Keys, freePages, poolSize)
      requires IsChain(parent, nextSibling, ks) && firstChild[page] == First(ks)
      requires forall id :: id in seqIds[page] ==> id in seq2page
      modifies this`parent, this`firstChild, this`nextSibling, this`seqIds, this`tokens, this`seq2page,
               this`freePages, this`poolSize
      ensures PoolOk(parent.Keys, freePages, poolSize)
      ensures child !in old(parent) && child != NULL
      ensures parent == Rehang(old(parent), ks, child)[child := page]
      ensures firstChild == old(firstChild)[child := old(firstChild[page])][page := child]
      ensures nextSibling == old(nextSibling)[child := NULL]
      ensures seqIds == old(seqIds)[child := old(seqIds[page])][page := []]
      ensures tokens == old(tokens)[child := old(tokens[page])[offset..]][page := old(tokens[page])[..offset]]
      ensures seq2page == Rehome(old(seq2page), old(seqIds[page]), child)
    {
      child := Allocate();
      ChainFresh(old(parent), old(nextSibling), ks, child, page, NULL);
      RehangFresh(old(parent), ks, child, page);
      Overwrite(old(parent), child, NULL, page);
      Overwrite(old(firstChild), child, NULL, firstChild[page]);
      Overwrite(old(seqIds), child, [], seqIds[page]);
      Overwrite(old(tokens), child, [], tokens[page][offset..]);
      RehangKeys(parent[child := page], ks, child);
      assert parent[child := page].Keys == parent.Keys;
      hide Chain, Rehang, Rehome, PoolOk, IsChain, First;
      LinkBelow(ks, page, child);
      MoveContents(page, child, offset);
    }

    /** Put a fresh page between a page and its children. */
    method LinkBelow(ghost ks: seq<PageId>, page: PageId, child: PageId)
      requires page in firstChild && page != child
      requires IsChain(parent[child := page], nextSibling, ks) && firstChild[page] == First(ks)
      modifies this`parent, this`firstChild
      ensures parent == Rehang(old(parent)[child := page], ks, child)
      ensures firstChild == old(firstChild)[child := old(firstChild[page])][page := child]
    {
      parent := parent[child := page];
      firstChild := firstChild[child := firstChild[page]];
      Reparent(ks, firstChild[page], child);
      firstChild := firstChild[page := child];
    }

    /** Move the tokens from a position on, and all sequences, to a fresh page. */
    method MoveContents(page: PageId, child: PageId, offset: nat)
      requires page in tokens && child in tokens && page in seqIds && page != child
      requires tokens[child] == [] && offset <= |tokens[page]|
      requires forall id :: id in seqIds[page] ==> id in seq2page
      modifies this`tokens, this`seqIds, this`seq2page
      ensures tokens == old(tokens)[child := old(tokens[page])[offset..]][page := old(tokens[page])[..offset]]
      ensures seqIds == old(seqIds)[child := old(seqIds[page])][page := []]
      ensures seq2page == Rehome(old(seq2page), old(seqIds[page]), child)
    {
      CopyTail(page, child, offset);
      tokens := tokens[page := tokens[page][..offset]];
      seqIds := seqIds[child := seqIds[page]];
      RehomeAll(child);
      seqIds := seqIds[page := []];
    }

    /** Copy the tokens of a page from a position on into an empty page. */
    method CopyTail(page: PageId, child: PageId, offset: nat)
      requires page in tokens && child in tokens && page != child && tokens[child] == [] && offset <= |tokens[page]|
      modifies this`tokens
      ensures tokens == old(tokens)[child := old(tokens[page])[offset..]]
    {
      var i := offset;
      assert tokens[page][offset..offset] == tokens[child];
      while i < |tokens[page]|
        invariant page in tokens && tokens[page] == old(tokens[page]) && offset <= i <= |tokens[page]|
        invariant child in tokens && tokens[child] == old(tokens[page])[offset..i]
        invariant tokens == old(tokens)[child := old(tokens[page])[offset..i]]
      {
        assert old(tokens[page])[offset..i + 1] == tokens[child] + [tokens[page][i]];
        tokens := tokens[child := tokens[child] + [tokens[page][i]]];
        i := i + 1;
      }
      assert old(tokens[page])[offset..i] == old(tokens[page])[offset..];
    }

    // -------------------------------------------------------------- links of one page

    /** Unlink a child, which is the k-th of its parent. */
    method RemoveChild(page: PageId, child: PageId) returns (ghost k: nat)
      requires SameDomain(State()) && page in parent && IsChain(parent, nextSibling, kids[page])
      requires firstChild[page] == First(kids[page]) && child in kids[page]
      modifies this`firstChild, this`nextSibling
      ensures k < |kids[page]| && kids[page][k] == child
      ensures child in old(nextSibling)
      ensures firstChild == if k == 0 then old(firstChild)[page := old(nextSibling[child])] else old(firstChild)
      ensures nextSibling == if k == 0 then old(nextSibling)
                             else old(nextSibling)[kids[page][k - 1] := old(nextSibling[child])]
    {
      ghost var ks := kids[page];
      assert child in parent;
      if firstChild[page] == child {
        firstChild := firstChild[page := nextSibling[child]];
        k := 0;
      } else {
        var last;
        last, k := LastSibling(page, child);
        nextSibling := nextSibling[last := nextSibling[child]];
      }
    }

    /** The page before a child that is not the first of its chain. */
    method LastSibling(page: PageId, child: PageId) returns (last: PageId, ghost k: nat)
      requires SameDomain(State()) && page in parent && IsChain(parent, nextSibling, kids[page])
      requires firstChild[page] == First(kids[page]) && child in kids[page] && firstChild[page] != child
      ensures 0 < k < |kids[page]| && kids[page][k] == child && last == kids[page][k - 1] && last in nextSibling
    {
      ghost var ks := kids[page];
      ghost var j :| 0 <= j < |ks| && ks[j] == child;
      last := firstChild[page];
      ghost var i := 0;
      assert ChainsAt(nextSibling, ks, 0);
      while nextSibling[last] != child
        invariant i < |ks| && last == ks[i] && last in nextSibling
        invariant nextSibling[last] == if i + 1 < |ks| then ks[i + 1] else NULL
        invariant forall m :: 0 <= m <= i ==> ks[m] != child
        decreases |ks| - i
      {
        assert i < j;
        assert ChainsAt(nextSibling, ks, i + 1);
        last := nextSibling[last];
        i := i + 1;
      }
      assert child in ks;
      k := i + 1;
    }

    /** Drop an empty leaf: unlink it and give it back to the pool. */
    method DropLeaf(page: PageId) returns (ghost k: nat)
      requires Consistent() && Emptied(State(), page) && page != ROOT && seqIds[page] == [] && kids[page] == []
      modifies this
      ensures old(CanPrune(State(), page)) && k < |old(kids[parent[page]])| && old(kids[parent[page]])[k] == page
      ensures State() == Prune(old(State()), page, k)
      ensures Consistent() && loose == old(loose)
      ensures old(Wf(State())) && page in old(parent) && old(parent[page]) in parent
      ensures Emptied(State(), old(parent[page])) && Contents() == old(Contents())
      ensures path[old(parent[page])] == old(path[parent[page]])
      ensures |old(path[page])| == |path[old(parent[page])]| + |old(tokens[page])| && 0 < |old(tokens[page])|
      ensures path[old(parent[page])] <= old(path[page])
      ensures CompressedBut(old(State()), {page}) ==> CompressedBut(State(), {old(parent[page])})
    {
      ghost var t := State();
      DropReady(t, page);
      hide Nested, Threaded, Labelled, Indexed, Emptied, CanPrune, Prune, PoolOk, View, CompressedBut;
      k := PrunePage(page);
      DropStep(t, page, k);
    }

    /** Unlink a page that holds nothing and give it back to the pool. */
    method PrunePage(page: PageId) returns (ghost k: nat)
      requires CanPrune(State(), page) && PoolOk(parent.Keys, freePages, poolSize)
      modifies this
      ensures PoolOk(parent.Keys, freePages, poolSize) && loose == old(loose)
      ensures old(CanPrune(State(), page)) && k < |old(kids[parent[page]])| && old(kids[parent[page]])[k] == page
      ensures State() == Prune(old(State()), page, k)
    {
      var above := parent[page];
      ghost var ks := kids[above];
      hide IsChain, PoolOk;
      k := RemoveChild(above, page);
      Free(page);
      kids := kids[above := Drop(ks, k)] - {page};
      path := path - {page};
    }

    // -------------------------------------------------------------- hanging sequences

    /** Pop a sequence from its page, keeping its entry in the index for now. */
    method Detach(id: SeqId) returns (page: PageId)
      requires Valid() && id in seq2page
      modifies this`seqIds, this`loose
      ensures page == seq2page[id] && loose == {id}
      ensures page in old(State()).ids && State() == PopId(old(State()), page, id)
      ensures Consistent() && Emptied(State(), page) && id !in State().where
      ensures Contents() == old(Contents()) - {id}
      ensures page in path && id in old(Contents()) && old(Contents())[id] == path[page]
      ensures old(Compressed(State())) ==> CompressedBut(State(), {page})
    {
      hide Wf, PoolOk, CompressedBut, LeafyExcept, Without, PopId, Emptied, View;
      ghost var t := State();
      DetachKeeps(t, id);
      DetachReady(t, id);
      page := seq2page[id];
      LooseOut(seq2page, id);
      PopListed(page, id);
    }

    method PopListed(page: PageId, id: SeqId)
      requires page in seqIds && id in seqIds[page] && loose == {}
      modifies this`seqIds, this`loose
      ensures loose == {id} && State() == PopId(old(State()), page, id)
    {
      hide Without;
      LooseOut(seq2page, id);
      PopSequence(page, id);
      loose := {id};
    }

    /** Put a sequence at the end of a page. */
    method Attach(page: PageId, id: SeqId)
      requires Consistent() && page in parent && id !in State().where && (id in seq2page ==> id in loose)
      modifies this`seqIds, this`seq2page, this`loose
      ensures Consistent() && loose == old(loose) - {id}
      ensures old(Wf(State())) && State() == AddId(old(State()), page, id)
      ensures Contents() == old(Contents())[id := path[page]]
      ensures LeafyExcept(old(State()), page) ==> Leafy(State())
      ensures forall q :: Mergeable(State(), q) ==> q != page && Mergeable(old(State()), q)
    {
      hide PoolOk, CompressedBut, LeafyExcept, AddId, View, Mergeable, Nested, Threaded, Labelled, Indexed;
      AttachKeeps(State(), page, id);
      assert page in seqIds;
      PushListed(page, id);
    }

    method PushListed(page: PageId, id: SeqId)
      requires page in seqIds
      modifies this`seqIds, this`seq2page, this`loose
      ensures loose == old(loose) - {id} && State() == AddId(old(State()), page, id)
    {
      LooseEntry(seq2page, loose, id, page);
      seqIds := seqIds[page := [id] + seqIds[page]];
      seq2page := seq2page[id := page];
      loose := loose - {id};
    }

    // -------------------------------------------------------------- public operations

    /** Whether a sequence is stored. */
    method HasSequence(id: SeqId) returns (b: bool)
      requires Valid()
      ensures b <==> id in Contents()
    {
      ViewIds(State());
      b := id in seq2page;
    }

    /** Add an empty sequence; fails if the id is taken. */
    method AddSequence(id: SeqId) returns (ok: bool)
      requires Valid()
      modifies this
      ensures Valid()
      ensures ok <==> id !in old(Contents())
      ensures Contents() == if ok then old(Contents())[id := []] else old(Contents())
      ensures old(Compressed(State())) ==> Compressed(State())
    {
      ViewIds(State());
      if id in seq2page {
        return false;
      }
      Attach(ROOT, id);
      return true;
    }

    /** Remove a stored sequence. */
    method RemoveSequence(id: SeqId)
      requires Valid() && id in Contents()
      modifies this
      ensures Valid()
      ensures Contents() == old(Contents()) - {id}
      ensures old(Compressed(State())) ==> Compressed(State())
    {
      hide Wf, PoolOk, CompressedBut, LeafyExcept, Emptied, View, Mergeable;
      ViewIds(State());
      var page := Detach(id);
      DropEntry(id);
      page := DropEmptied(page);
      RemoveDone(State(), page);
      var mergeable := IsMergeable(page);
      if mergeable {
        MergePage(page);
      }
    }

    /** Forget the index entry of a detached sequence. */
    method DropEntry(id: SeqId)
      requires loose == {id}
      modifies this`seq2page, this`loose
      ensures State() == old(State()) && loose == {} && id !in seq2page
    {
      LooseOut(seq2page - {id}, id);
      assert seq2page - {id} - {} == seq2page - {id};
      seq2page := seq2page - {id};
      loose := {};
    }

    /** Drop pages from an emptied one upwards until one is still needed. */
    method DropEmptied(start: PageId) returns (page: PageId)
      requires Consistent() && Emptied(State(), start)
      modifies this
      ensures Consistent() && Emptied(State(), page) && loose == old(loose)
      ensures Contents() == old(Contents())
      ensures page in parent && page in seqIds && page in kids
      ensures page == ROOT || seqIds[page] != [] || kids[page] != []
      ensures CompressedBut(old(State()), {start}) ==> CompressedBut(State(), {page})
    {
      page := start;
      hide PoolOk, CompressedBut, View;
      EmptiedLinks(State(), page);
      while parent[page] != NULL && seqIds[page] == [] && firstChild[page] == NULL
        invariant Consistent() && Emptied(State(), page) && loose == old(loose)
        invariant page in parent && page in seqIds && page in firstChild && page in kids
        invariant parent[page] == NULL <==> page == ROOT
        invariant firstChild[page] == NULL <==> kids[page] == []
        invariant Contents() == old(Contents())
        invariant CompressedBut(old(State()), {start}) ==> CompressedBut(State(), {page})
        decreases |path[page]|
      {
        var above := parent[page];
        var _ := DropLeaf(page);
        page := above;
        EmptiedLinks(State(), page);
      }
    }

    /** The length of a stored sequence, summed over its pages. */
    method GetSequenceLength(id: SeqId) returns (length: nat)
      requires Valid() && id in Contents()
      ensures length == |Contents()[id]|
    {
      hide Wf, PoolOk, LeafyExcept, View;
      ghost var t := State();
      ViewIds(t);
      DetachReady(t, id);
      length := 0;
      var page := seq2page[id];
      PageAbove(t, page);
      while page != NULL
        invariant page != NULL ==> page in t.parent && page in t.tokens && page in t.path
        invariant page != NULL ==> length + |t.path[page]| == |Contents()[id]|
        invariant page == NULL ==> length == |Contents()[id]|
        decreases if page == NULL then 0 else 1 + |t.path[page]|
      {
        PageAbove(t, page);
        length := length + |tokens[page]|;
        page := parent[page];
        if page != NULL { PageAbove(t, page); }
      }
    }

    /** The tokens of a stored sequence, filled in from its last page backwards. */
    method GetSequence(id: SeqId) returns (ok: bool, output: seq<Token>)
      requires Valid()
      ensures ok <==> id in Contents()
      ensures ok ==> output == Contents()[id]
    {
      hide Wf, PoolOk, LeafyExcept, View;
      ghost var t := State();
      ViewIds(t);
      if id !in seq2page {
        return false, [];
      }
      DetachReady(t, id);
      output := [];
      var page := seq2page[id];
      PageAbove(t, page);
      while page != NULL
        invariant page != NULL ==> page in t.parent && page in t.tokens && page in t.path
        invariant page != NULL ==> t.path[page] + output == Contents()[id]
        invariant page == NULL ==> output == Contents()[id]
        decreases if page == NULL then 0 else 1 + |t.path[page]|
      {
        PageAbove(t, page);
        output := tokens[page] + output;
        page := parent[page];
        if page != NULL { PageAbove(t, page); }
      }
      return true, output;
    }

    /** Climb from the end of a sequence to the page that contains a position. */
    method FindOffset(last: PageId, total: nat, offset: nat) returns (page: PageId, length: nat)
      requires Wf(State()) && last in parent && last in path && total == |path[last]| && 0 < offset <= total
      ensures Reaches(State(), page, path[last], offset) && length == |path[page]|
    {
      hide Wf;
      ghost var t := State();
      page, length := last, total;
      PageAbove(t, page);
      while offset <= length - |tokens[page]|
        invariant page in t.parent && page in t.tokens && page in t.path && page != ROOT
        invariant length == |t.path[page]| && offset <= length && |t.tokens[page]| <= |t.path[page]|
        invariant t.path[page] <= t.path[last]
        decreases |t.path[page]|
      {
        PageAbove(t, page);
        length := length - |tokens[page]|;
        page := parent[page];
        PageAbove(t, page);
      }
      PageAbove(t, page);
    }

    /** Fork a sequence at a position inside another one. Fails if the new id is taken,
        the parent is unknown, or the position is not within the parent. */
    method ForkSequence(id: SeqId, parentId: SeqId, forkedOffset: nat) returns (ok: bool)
      requires Valid()
      modifies this
      ensures Valid()
      ensures ok <==> id !in old(Contents()) && parentId in old(Contents())
                      && 0 < forkedOffset <= |old(Contents())[parentId]|
      ensures Contents() == if ok then old(Contents())[id := old(Contents())[parentId][..forkedOffset]]
                            else old(Contents())
      ensures old(Compressed(State())) ==> Compressed(State())
    {
      hide Wf, PoolOk, CompressedBut, LeafyExcept, View, Mergeable;
      ViewIds(State());
      if id in seq2page || parentId !in seq2page || forkedOffset == 0 {
        return false;
      }
      var length := GetSequenceLength(parentId);
      if forkedOffset > length {
        return false;
      }
      DetachReady(State(), parentId);
      var page;
      page, length := FindOffset(seq2page[parentId], length, forkedOffset);
      ForkAt(page, forkedOffset + |tokens[page]| - length, Contents()[parentId], forkedOffset, id, page);
      return true;
    }

    /** Hang a new sequence `inPage` tokens into a page, splitting the page if needed. Of the
        pages only x may be mergeable: the page itself or one below it. */
    method ForkAt(page: PageId, inPage: nat, ghost base: seq<Token>, ghost offset: nat, id: SeqId, ghost x: PageId)
      requires Valid() && Reaches(State(), page, base, offset)
      requires inPage == offset + |tokens[page]| - |path[page]| && id !in seq2page
      requires x in parent && page in parent && (x == page || (x in path && |path[page]| < |path[x]|))
      modifies this
      ensures Valid()
      ensures Contents() == old(Contents())[id := base[..offset]]
      ensures old(Compressed(State())) ==> Compressed(State())
      ensures old(SameDomain(State())) && inPage <= |old(State()).tokens[page]|
      ensures CompressedBut(old(State()), {x}) ==>
                (Compressed(State()) <==> !Spoilt(old(State()), x, page, |old(State()).tokens[page]| - inPage))
    {
      hide Wf, PoolOk, CompressedBut, LeafyExcept, View, Mergeable, CutPage, Split, Spoilt;
      ghost var t := State();
      DomainOf(t);
      ReachesText(t, page, base, offset);
      CompressedWeakens(t, x);
      CompressedWeakens(t, page);
      NotSpoilt(t, x, page, |t.tokens[page]| - inPage);
      if inPage < |tokens[page]| {
        ForkInPage(page, inPage, id, x);
      } else {
        ForkAtEnd(page, id, x);
        assert t.path[page][..offset] == t.path[page];
      }
    }

    method ForkInPage(page: PageId, inPage: nat, id: SeqId, ghost x: PageId)
      requires Valid() && page in parent && page != ROOT && page in tokens && 0 < inPage < |tokens[page]|
      requires id !in seq2page
      requires page in path && x in parent && (x == page || (x in path && |path[page]| < |path[x]|))
      requires parent[page] in path
      modifies this
      ensures Valid()
      ensures Contents() == old(Contents())[id := old(path[parent[page]]) + old(tokens[page])[..inPage]]
      ensures CompressedBut(old(State()), {page}) ==> Compressed(State())
      ensures old(SameDomain(State()))
      ensures x != page && CompressedBut(old(State()), {x}) ==>
                (Compressed(State()) <==> !Spoilt(old(State()), x, page, |old(State()).tokens[page]| - inPage))
    {
      hide Wf, PoolOk, CompressedBut, LeafyExcept, View, Mergeable, CutPage, Split, Spoilt;
      ghost var t := State();
      DomainOf(t);
      ghost var c;
      var cut;
      cut, c := SplitPage(page, inPage);
      ForkInside(t, page, inPage, c, id);
      ForkBelow(t, x, page, inPage, c, id);
      Attach(cut, id);
    }

    method ForkAtEnd(page: PageId, id: SeqId, ghost x: PageId)
      requires Valid() && page in parent && page in path && id !in seq2page && x in parent
      modifies this
      ensures Valid()
      ensures Contents() == old(Contents())[id := old(path[page])]
      ensures old(Compressed(State())) ==> Compressed(State())
      ensures old(SameDomain(State()))
      ensures CompressedBut(old(State()), {x}) ==>
                (x == page ==> Compressed(State()))
                && (x != page ==> (Compressed(State()) <==> !Spoilt(old(State()), x, page, 0)))
    {
      hide Wf, PoolOk, CompressedBut, LeafyExcept, View, Mergeable, Spoilt;
      ghost var t := State();
      DomainOf(t);
      AttachLeafy(t, page, id);
      if CompressedBut(t, {x}) { AttachBelow(t, x, page, id); }
      Attach(page, id);
      StillCompressed(t, State());
    }

    // -------------------------------------------------------------- writing tokens

    /** Push n tokens of the text, from a position on, to the back of a page. */
    method PushTokens(page: PageId, text: seq<Token>, at: nat, n: nat)
      requires page in tokens && at + n <= |text|
      modifies this`tokens
      ensures tokens == old(tokens)[page := old(tokens[page]) + text[at..at + n]]
    {
      var i := 0;
      assert old(tokens[page]) + text[at..at] == tokens[page];
      while i < n
        invariant i <= n
        invariant page in tokens && tokens[page] == old(tokens[page]) + text[at..at + i]
        invariant tokens == old(tokens)[page := old(tokens[page]) + text[at..at + i]]
      {
        assert old(tokens[page]) + text[at..at + (i + 1)] == tokens[page] + [text[at + i]];
        tokens := tokens[page := tokens[page] + [text[at + i]]];
        i := i + 1;
      }
    }

    /** Insert a new page with n tokens of the text in front of the children of a page. */
    method HangPage(page: PageId, text: seq<Token>, at: nat, n: nat) returns (child: PageId)
      requires SameDomain(State()) && PoolOk(parent.Keys, freePages, poolSize) && page in parent && at + n <= |text|
      modifies this
      ensures PoolOk(parent.Keys, freePages, poolSize) && loose == old(loose)
      ensures child !in old(parent) && child != NULL
      ensures State() == Graft(old(State()), page, child, text[at..at + n])
    {
      ghost var ks, prefix := kids[page], path[page];
      child := HangFields(page, text, at, n);
      kids := kids[child := []][page := [child] + ks];
      path := path[child := prefix + text[at..at + n]];
    }

    method HangFields(page: PageId, text: seq<Token>, at: nat, n: nat) returns (child: PageId)
      requires page in parent && page in firstChild && PoolOk(parent.Keys, freePages, poolSize) && at + n <= |text|
      modifies this`parent, this`firstChild, this`nextSibling, this`seqIds, this`tokens, this`freePages, this`poolSize
      ensures PoolOk(parent.Keys, freePages, poolSize)
      ensures child !in old(parent) && child != NULL
      ensures parent == old(parent)[child := page] && firstChild == old(firstChild)[child := NULL][page := child]
      ensures nextSibling == old(nextSibling)[child := old(firstChild[page])]
      ensures seqIds == old(seqIds)[child := []] && tokens == old(tokens)[child := text[at..at + n]]
    {
      hide PoolOk;
      child := Allocate();
      Overwrite(old(parent), child, NULL, page);
      Overwrite(old(nextSibling), child, NULL, firstChild[page]);
      Overwrite(old(tokens), child, [], text[at..at + n]);
      assert parent[child := page].Keys == parent.Keys;
      parent := parent[child := page];
      nextSibling := nextSibling[child := firstChild[page]];
      firstChild := firstChild[page := child];
      assert [] + text[at..at + n] == text[at..at + n];
      PushTokens(child, text, at, n);
    }

    /** Write the rest of the text behind a page: fill it up if it is an empty leaf, then
        hang new pages below it, one after the other. */
    method AppendText(start: PageId, ghost base: seq<Token>, text: seq<Token>, from: nat) returns (page: PageId)
      requires Consistent() && Growing(State(), base, text, start, from)
      modifies this
      ensures Consistent() && loose == old(loose) && Growing(State(), base, text, page, |text|)
      ensures Contents() == old(Contents())
      ensures NoNewMergeable(old(State()), State())
      ensures from < |text| ==> !Mergeable(State(), start)
      ensures from == |text| ==> page == start
      ensures old(parent).Keys <= parent.Keys
    {
      hide Wf, PoolOk, View, Mergeable, NoChildStarts, LeafyExcept, Growing, NoNewMergeable;
      ghost var t := State();
      page := start;
      SameMergeable(t);
      GrowingPage(t, base, text, page, from);
      var offset := FillFirst(start, base, text, from);
      while offset < |text|
        invariant offset <= |text|
        invariant Consistent() && loose == old(loose) && Growing(State(), base, text, page, offset)
        invariant offset < |text| ==> !Roomy(State(), page)
        invariant Contents() == old(Contents())
        invariant NoNewMergeable(t, State())
        invariant from < offset ==> !Mergeable(State(), start)
        invariant from == offset ==> page == start
        invariant t.parent.Keys <= parent.Keys
        decreases |text| - offset
      {
        var n := if PAGE_CAPACITY < |text| - offset then PAGE_CAPACITY else |text| - offset;
        ghost var u := State();
        page := AddPage(page, base, text, offset, n);
        NoNewTwice(t, u, State(), start);
        offset := offset + n;
      }
    }

    /** Fill the page up first if it is an empty leaf with room. */
    method FillFirst(page: PageId, ghost base: seq<Token>, text: seq<Token>, from: nat) returns (offset: nat)
      requires Consistent() && Growing(State(), base, text, page, from) && from <= |text|
      modifies this`tokens, this`path
      ensures from <= offset <= |text| && Consistent() && Growing(State(), base, text, page, offset)
      ensures offset < |text| ==> !Roomy(State(), page)
      ensures Contents() == old(Contents()) && NoNewMergeable(old(State()), State())
      ensures from < offset ==> !Mergeable(State(), page)
    {
      hide Wf, PoolOk, View, Mergeable, NoChildStarts, LeafyExcept, Growing;
      ghost var t := State();
      offset := from;
      SameMergeable(t);
      GrowingPage(t, base, text, page, offset);
      if offset < |text| && seqIds[page] == [] && firstChild[page] == NULL && Capacity(page) > |tokens[page]| {
        var room := Capacity(page) - |tokens[page]|;
        var n := if room < |text| - offset then room else |text| - offset;
        FillPage(page, base, text, offset, n);
        offset := offset + n;
        GrowingPage(State(), base, text, page, offset);
      }
    }

    method FillPage(page: PageId, ghost base: seq<Token>, text: seq<Token>, offset: nat, n: nat)
      requires Consistent() && Growing(State(), base, text, page, offset) && Roomy(State(), page)
      requires 0 < n && offset + n <= |text| && |tokens[page]| + n <= PAGE_CAPACITY
      modifies this`tokens, this`path
      ensures Consistent() && Growing(State(), base, text, page, offset + n)
      ensures Contents() == old(Contents())
      ensures NoNewMergeable(old(State()), State()) && !Mergeable(State(), page)
      ensures page in old(tokens) && page in tokens && |tokens[page]| == |old(tokens[page])| + n
    {
      hide Wf, PoolOk, View, Mergeable, Growing, NoNewMergeable, Roomy;
      ghost var t := State();
      GrowingWf(t, base, text, page, offset);
      GrowingAbove(t, base, text, page, offset);
      FillStep(t, base, text, page, offset, n);
      WriteTokens(page, text, offset, n);
      GrowingWf(State(), base, text, page, offset + n);
    }

    method WriteTokens(page: PageId, text: seq<Token>, offset: nat, n: nat)
      requires SameDomain(State()) && page in parent && parent[page] in parent && offset + n <= |text|
      modifies this`tokens, this`path
      ensures page in old(tokens) && State() == Retext(old(State()), page, old(tokens[page]) + text[offset..offset + n])
      ensures page in tokens && |tokens[page]| == |old(tokens[page])| + n
    {
      PushTokens(page, text, offset, n);
      path := path[page := path[parent[page]] + tokens[page]];
    }

    method AddPage(page: PageId, ghost base: seq<Token>, text: seq<Token>, offset: nat, n: nat) returns (child: PageId)
      requires Consistent() && Growing(State(), base, text, page, offset) && !Roomy(State(), page)
      requires 0 < n <= PAGE_CAPACITY && offset + n <= |text|
      modifies this
      ensures Consistent() && loose == old(loose) && Growing(State(), base, text, child, offset + n)
      ensures Contents() == old(Contents())
      ensures NoNewMergeable(old(State()), State()) && !Mergeable(State(), page)
      ensures n == PAGE_CAPACITY ==> !Roomy(State(), child)
      ensures old(parent).Keys <= parent.Keys
    {
      hide Wf, PoolOk, View, Mergeable, Growing, NoNewMergeable, Roomy, Graft;
      ghost var t := State();
      GrowingWf(t, base, text, page, offset);
      child := HangPage(page, text, offset, n);
      HangStep(t, base, text, page, offset, n, child);
      GrowingWf(State(), base, text, child, offset + n);
      GraftPages(t, page, child, text[offset..offset + n]);
      FullPage(State(), child);
    }

    /** Extend a stored sequence with more tokens; fails if the sequence is unknown. */
    method ExtendSequence(id: SeqId, text: seq<Token>) returns (ok: bool)
      requires Valid()
      modifies this
      ensures Valid()
      ensures ok <==> id in old(Contents())
      ensures Contents() == if ok then old(Contents())[id := old(Contents())[id] + text] else old(Contents())
      ensures old(Compressed(State())) ==> Compressed(State())
    {
      hide Wf, PoolOk, CompressedBut, View, Mergeable, LeafyExcept;
      ghost var t := State();
      ViewIds(t);
      if id !in seq2page {
        return false;
      }
      ghost var base := Contents()[id];
      var start := Detach(id);
      var page, offset := PlaceText(start, text);
      ghost var cut := page;
      ghost var split := State();
      page := AppendText(page, base, text, offset);
      WrittenCompressed(split, State(), start, cut, page);
      FinishExtend(page, base, text, id, start);
      Reput(old(Contents()), id, base + text);
      return true;
    }

    /** Hang an extended sequence at its end and merge the page it was detached from. */
    method FinishExtend(page: PageId, ghost base: seq<Token>, text: seq<Token>, id: SeqId, start: PageId)
      requires Consistent() && Growing(State(), base, text, page, |text|)
      requires start in parent && loose == {id} && id !in Contents()
      modifies this
      ensures Valid()
      ensures Contents() == old(Contents())[id := base + text]
      ensures CompressedBut(old(State()), {start, page}) ==> Compressed(State())
    {
      hide Wf, PoolOk, CompressedBut, View, Mergeable, LeafyExcept, Fuse;
      ghost var t := State();
      ViewIds(t);
      ExtendDone(t, base, text, page, id, start);
      Attach(page, id);
      var mergeable := IsMergeable(start);
      if mergeable {
        MergePage(start);
      }
    }

    /** Find the page where the text leaves the tree, splitting it if that is inside. */
    method PlaceText(start: PageId, text: seq<Token>) returns (page: PageId, offset: nat)
      requires Consistent() && Emptied(State(), start)
      modifies this
      ensures Consistent() && loose == old(loose)
      ensures start in old(path) && Growing(State(), old(path[start]), text, page, offset)
      ensures Contents() == old(Contents())
      ensures start in parent
      ensures CompressedBut(old(State()), {start}) ==> CompressedBut(State(), {start, page})
    {
      hide PoolOk, CompressedBut, View, Mergeable, LeafyExcept, Nested, Threaded, Labelled, Indexed, Stops;
      ghost var t := State();
      var inPage;
      page, offset, inPage := MatchSequence(start, text);
      StopsPage(t, start, text, page, offset, inPage);
      if inPage < |tokens[page]| {
        ghost var c;
        ghost var whole := page;
        page, c := SplitPage(page, inPage);
        ExtendInside(t, start, text, whole, offset, inPage, c);
      } else {
        ExtendAtEnd(t, start, text, page, offset, inPage);
        MoreAllowed(t, start, page);
      }
    }

    /** Roll a stored sequence back by a number of tokens. Fails if the sequence is
        unknown, or the number is zero or more than its length. */
    method RollBackSequence(id: SeqId, numTokens: nat) returns (ok: bool)
      requires Valid()
      modifies this
      ensures Valid()
      ensures ok <==> id in old(Contents()) && 0 < numTokens <= |old(Contents())[id]|
      ensures Contents() == if ok then old(Contents())[id := old(Contents())[id][..|old(Contents())[id]| - numTokens]]
                            else old(Contents())
      ensures ok && old(Compressed(State())) ==> (Compressed(State()) <==> !LeavesPair(old(State()), id, numTokens))
    {
      hide Wf, PoolOk, CompressedBut, View, Mergeable, LeafyExcept, LeavesPair;
      ViewIds(State());
      if id !in seq2page {
        return false;
      }
      var length := GetSequenceLength(id);
      if numTokens == 0 || numTokens > length {
        return false;
      }
      ghost var base := Contents()[id];
      DetachReady(State(), id);
      if numTokens == length {
        AllLeavesNone(State(), id, numTokens);
        RemoveSequence(id);
        ok := AddSequence(id);
        Reput(old(Contents()), id, []);
        assert base[..0] == [];
        return;
      }
      RollBackPart(id, numTokens, base);
      return true;
    }

    /** Roll back a part of a sequence. */
    method RollBackPart(id: SeqId, numTokens: nat, ghost base: seq<Token>)
      requires Valid() && id in Contents() && Contents()[id] == base && 0 < numTokens < |base| && id in seq2page
      modifies this
      ensures Valid()
      ensures Contents() == old(Contents())[id := base[..|base| - numTokens]]
      ensures old(Wf(State())) && id in old(State()).where
      ensures old(Compressed(State())) ==> (Compressed(State()) <==> !LeavesPair(old(State()), id, numTokens))
    {
      hide *;
      ghost var t, offset := State(), |base| - numTokens;
      SequenceIsThere(id);
      var page := LiftOut(id, numTokens);
      var left;
      ghost var x, d, rest;
      page, left, x, d, rest := ClimbBack(page, numTokens, base, t, id);
      EmptiedWf(State(), page);
      FieldsAre();
      BelowRoot(State(), page, base, offset);
      ClimbEnd(t, State(), id, numTokens, page, left, x, d, rest);
      CutBack(page, left, base, offset, id, x);
      Reput(old(Contents()), id, base[..offset]);
    }

    lemma FieldsAre()
      ensures State().parent == parent && State().tokens == tokens && State().path == path && State().kids == kids
      ensures State().ids == seqIds
    {
    }

    /** A stored sequence is in the index. */
    lemma SequenceIsThere(id: SeqId)
      requires Valid()
      ensures Wf(State()) && SameDomain(State()) && (id in Contents() <==> id in State().where)
    {
      hide Nested, Threaded, Labelled, Indexed, View;
      ViewIds(State());
    }

    /** Take a sequence out, keeping its tokens: the climb of a rollback starts here. */
    method LiftOut(id: SeqId, ghost numTokens: nat) returns (page: PageId)
      requires Valid() && id in seq2page && id in Contents() && numTokens < |Contents()[id]|
      modifies this`seqIds, this`seq2page, this`loose
      ensures Consistent() && Emptied(State(), page) && loose == {} && id !in Contents()
      ensures Contents() == old(Contents()) - {id}
      ensures page in path && path[page] == old(Contents())[id]
      ensures Climbing(old(State()), State(), id, numTokens, page, numTokens, page, NULL, 0)
    {
      hide Wf, PoolOk, CompressedBut, View, LeafyExcept, Climbing, Emptied;
      ghost var t := State();
      DetachReady(t, id);
      page := Detach(id);
      DropEntry(id);
      EmptiedWf(State(), page);
      ClimbStart(t, id, numTokens);
    }

    /** Climb over whole pages that are rolled back, dropping those nobody else needs. */
    method ClimbBack(last: PageId, numTokens: nat, ghost base: seq<Token>, ghost t: Tree, ghost id: SeqId)
      returns (page: PageId, left: nat, ghost x: PageId, ghost d: PageId, ghost rest: nat)
      requires Consistent() && Emptied(State(), last) && last in path && path[last] == base && numTokens < |base|
      requires Climbing(t, State(), id, numTokens, last, numTokens, last, NULL, 0)
      modifies this
      ensures Consistent() && loose == old(loose) && Contents() == old(Contents())
      ensures Emptied(State(), page) && Reaches(State(), page, base, |base| - numTokens)
      ensures left < |tokens[page]| && |path[page]| - left == |base| - numTokens
      ensures Climbing(t, State(), id, numTokens, page, left, x, d, rest)
    {
      hide Wf, PoolOk, View, Emptied, CompressedBut, Climbing;
      page, left := last, numTokens;
      x, d, rest := last, NULL, 0;
      EmptiedAbove(State(), page);
      while |tokens[page]| <= left
        invariant Consistent() && loose == old(loose) && Contents() == old(Contents())
        invariant Emptied(State(), page)
        invariant page in parent && page in tokens && page in path && page in seqIds && page in kids
        invariant page in firstChild
        invariant left <= |path[page]| && |path[page]| - left == |base| - numTokens && path[page] <= base
        invariant page != ROOT
        invariant Climbing(t, State(), id, numTokens, page, left, x, d, rest)
        decreases |path[page]|
      {
        EmptiedAbove(State(), page);
        EmptiedWf(State(), page);
        NotYetRoot(State(), page, left);
        page, left, x, d, rest := ClimbOver(page, left, t, id, numTokens, x, d, rest);
        EmptiedAbove(State(), page);
      }
      EmptiedAbove(State(), page);
    }

    /** Climb over one page, dropping it if nobody else needs it. */
    method ClimbOver(page: PageId, left: nat, ghost t: Tree, ghost id: SeqId, ghost numTokens: nat, ghost x: PageId,
                     ghost d: PageId, ghost rest: nat)
      returns (above: PageId, left': nat, ghost x': PageId, ghost d': PageId, ghost rest': nat)
      requires Consistent() && Emptied(State(), page) && page != ROOT
      requires page in parent && page in tokens && page in path && page in seqIds && page in kids && page in firstChild
      requires firstChild[page] == NULL <==> kids[page] == []
      requires |tokens[page]| <= left && parent[page] in parent && parent[page] in path && parent[page] != ROOT
      requires Climbing(t, State(), id, numTokens, page, left, x, d, rest)
      modifies this
      ensures Consistent() && loose == old(loose) && Contents() == old(Contents())
      ensures above == old(parent[page]) && left' == left - |old(tokens[page])|
      ensures Emptied(State(), above) && above in path && path[above] == old(path[parent[page]])
      ensures Climbing(t, State(), id, numTokens, above, left', x', d', rest')
    {
      hide Wf, PoolOk, View, Emptied, CompressedBut, Climbing;
      ghost var u := State();
      EmptiedWf(u, page);
      x', d', rest' := x, d, rest;
      above := parent[page];
      left' := left - |tokens[page]|;
      if x != page { ClimbPast(t, u, id, numTokens, page, left, x, d, rest); }
      if seqIds[page] == [] && firstChild[page] == NULL {
        ghost var k := DropLeaf(page);
        EmptiedWf(State(), above);
        ClimbDropped(t, u, id, numTokens, page, left, d, rest, k);
        x', d', rest' := above, page, 0;
      } else {
        StillNeeded(State(), page, above);
        if x == page {
          ClimbKeep(t, u, id, numTokens, page, left, d, rest);
          rest' := left';
        }
      }
    }

    /** Cut the last `left` tokens of a page off the sequence and hang it there. Of the pages
        only x may be mergeable: the page itself or one below it. */
    method CutBack(page: PageId, left: nat, ghost base: seq<Token>, ghost offset: nat, id: SeqId, ghost x: PageId)
      requires Consistent() && Emptied(State(), page) && loose == {} && id !in Contents()
      requires Reaches(State(), page, base, offset) && offset + left == |path[page]| && left < |tokens[page]|
      requires SameDomain(State()) && x in parent && page in parent
      requires x == page || (x in path && |path[page]| < |path[x]| && page in kids && kids[page] != [])
      modifies this
      ensures Valid()
      ensures Contents() == old(Contents())[id := base[..offset]]
      ensures old(SameDomain(State())) && x in old(parent) && page in old(parent)
      ensures CompressedBut(old(State()), {x}) ==> (Compressed(State()) <==> !Spoilt(old(State()), x, page, left))
    {
      hide Wf, PoolOk, View, Emptied, CompressedBut, CutPage, Split, Mergeable, LeafyExcept, PairsWithParent, Spoilt;
      ghost var t := State();
      ViewIds(t);
      EmptiedAbove(t, page);
      if seqIds[page] == [] && firstChild[page] == NULL {
        SpoiltLeaf(t, page, left);
        CutAtLeaf(page, left, base, offset, id);
      } else {
        Occupied(t, page);
        ForkAt(page, |tokens[page]| - left, base, offset, id, x);
      }
    }

    method CutAtLeaf(page: PageId, left: nat, ghost base: seq<Token>, ghost offset: nat, id: SeqId)
      requires Consistent() && Emptied(State(), page) && page != ROOT && loose == {} && id !in State().where
      requires id !in seq2page
      requires page in seqIds && seqIds[page] == [] && page in kids && kids[page] == []
      requires page in tokens && left < |tokens[page]|
      requires page in path && left <= |path[page]| && offset <= |base|
      requires base[..offset] == path[page][..|path[page]| - left]
      modifies this
      ensures Valid()
      ensures Contents() == old(Contents())[id := base[..offset]]
      ensures CompressedBut(old(State()), {page}) && page in old(parent) ==>
                (Compressed(State()) <==> !PairsWithParent(old(State()), page, |old(State()).tokens[page]| - left))
    {
      hide *;
      ghost var t := State();
      var k := |tokens[page]| - left;
      FieldsAre();
      PoolKept();
      EmptiedAbove(t, page);
      CutLeaf(t, page, k, id);
      if CompressedBut(t, {page}) { CutLeafCompressedIff(t, page, k, id); }
      ShrinkPage(page, k);
      FieldsAre();
      PoolAgain();
      Attach(page, id);
      PoolKept();
    }

    /** What is consistent: the tree and the pool. */
    lemma PoolKept()
      ensures Consistent() ==> Wf(State()) && SameDomain(State()) && PoolOk(parent.Keys, freePages, poolSize)
      ensures Consistent() && loose == {} && Leafy(State()) ==> Valid()
      ensures Contents() == View(State())
    {
      hide Nested, Threaded, Labelled, Indexed, PoolOk, View, LeafyExcept;
    }

    lemma PoolAgain()
      ensures Wf(State()) && PoolOk(parent.Keys, freePages, poolSize) ==> Consistent()
    {
    }

    /** Shorten an empty leaf. */
    method ShrinkPage(page: PageId, length: nat)
      requires page in tokens && page in path && page in parent && parent[page] in path && length <= |tokens[page]|
      requires SameDomain(State())
      modifies this`tokens, this`path
      ensures State() == Retext(old(State()), page, old(tokens[page])[..length])
    {
      tokens := tokens[page := tokens[page][..length]];
      path := path[page := path[parent[page]] + tokens[page]];
    }

    // -------------------------------------------------------------- prefix matching

    /** Visit a page, then its later siblings, then its children, listing the sequences
        met; `page` is the i-th child of `above`. */
    method Iterate(page: PageId, ghost above: PageId, ghost i: nat) returns (out: seq<SeqId>)
      requires Wf(State()) && above in parent && i < |kids[above]| && page == kids[above][i]
      ensures ListsRest(State(), above, i, out)
      decreases Rest(State(), above, i)
    {
      hide Nested, Threaded, Labelled, Indexed, Rest, ListsRest;
      ghost var t := State();
      RestShrinks(t, above, i);
      NextInChain(t, above, i);
      if i + 1 < |kids[above]| { NextInChain(t, above, i + 1); }
      OneChild(t, page);
      out := seqIds[page];
      var later, below := [], [];
      if nextSibling[page] != NULL {
        later := Iterate(nextSibling[page], above, i + 1);
      } else {
        NothingInRest(t, above, i + 1);
      }
      if firstChild[page] != NULL {
        below := Iterate(firstChild[page], page, 0);
      } else {
        NothingInRest(t, page, 0);
      }
      CollectRest(t, above, i, later, below);
      out := out + later + below;
    }

    /** All sequences that end in a page or below it. */
    method FindAllChildSequence(page: PageId) returns (out: seq<SeqId>)
      requires Wf(State()) && page in parent
      ensures ListsUnder(State(), page, out)
    {
      hide Nested, Threaded, Labelled, Indexed, Rest, ListsRest, ListsUnder;
      ghost var t := State();
      OneChild(t, page);
      out := seqIds[page];
      var below := [];
      if firstChild[page] != NULL {
        below := Iterate(firstChild[page], page, 0);
      } else {
        NothingInRest(t, page, 0);
      }
      CollectUnder(t, page, below);
      out := out + below;
    }

    /** The longest prefix of the text that some stored sequence starts with, and the
        sequences that start with it. */
    method MatchPrefix(text: seq<Token>) returns (offset: nat, ids: seq<SeqId>)
      requires Valid()
      ensures offset <= |text| && NoRepeats(ids) && (ids == [] <==> offset == 0)
      ensures forall id :: id in ids ==>
                id in Contents() && offset <= |Contents()[id]| && Contents()[id][..offset] == text[..offset]
      ensures forall id ::
              id in Contents() && 0 < offset <= |Contents()[id]| && Contents()[id][..offset] == text[..offset] ==>
                id in ids
      ensures forall id, k: nat {:trigger Contents()[id][..k]} ::
                id in Contents() && offset < k <= |text| && k <= |Contents()[id]| ==> Contents()[id][..k] != text[..k]
      ensures IsLongestMatch(Contents(), text, offset, ids)
    {
      offset, ids := FindMatches(text);
      MatchMeans(Contents(), text, offset, ids);
    }

    /** The walk along the text and the list of the sequences below where it stops. */
    method FindMatches(text: seq<Token>) returns (offset: nat, ids: seq<SeqId>)
      requires Valid()
      ensures IsLongestMatch(Contents(), text, offset, ids)
    {
      hide Wf, PoolOk, View, LeafyExcept, Stops, ListsUnder, Share;
      ghost var t := State();
      MatchReady(t);
      var page, inPage;
      page, offset, inPage := MatchSequence(ROOT, text);
      LongestMatch(t, text, page, offset, inPage);
      MatchEnds(t, text, page, offset, inPage);
      if offset == 0 {
        return 0, [];
      }
      ids := FindAllChildSequence(page);
      UnderIsDistinct(t, page, ids);
    }

    /** The number of tokens that fit into free pages. */
    method FreeCapacity() returns (n: nat)
      requires Valid()
      ensures n == (poolSize - (|parent| - 1)) * 64
    {
      PoolCount(parent.Keys, freePages, poolSize);
      assert |parent| == |parent.Keys|;
      n := |freePages| * PAGE_CAPACITY;
    }
  }
}
