/** The steps that change the shape of the page tree, one at a time: hanging a new leaf
    under a page, pruning an empty leaf, rewriting the text of an empty leaf, dividing a
    page in two and fusing a page with its only child. Each keeps the invariant, and
    none of them changes what any sequence spells. */
module RadixSteps {
  import opened RadixPages

  // ---------------------------------------------------------------- graft

  ghost function Graft(t: Tree, p: PageId, c: PageId, text: seq<Token>): Tree
    requires SameDomain(t) && p in t.parent
  {
    Tree(t.parent[c := p], t.firstChild[c := NULL][p := c], t.nextSibling[c := t.firstChild[p]],
         t.ids[c := []], t.tokens[c := text], t.where,
         t.kids[c := []][p := [c] + t.kids[p]], t.path[c := t.path[p] + text])
  }

  lemma GraftNested(parent: map<PageId, PageId>, kids: map<PageId, seq<PageId>>, p: PageId, c: PageId)
    requires Nested(parent, kids) && p in parent && c !in parent && c != NULL
    ensures Nested(parent[c := p], kids[c := []][p := [c] + kids[p]])
  {
    var kids' := kids[c := []][p := [c] + kids[p]];
    forall q, i | q in kids' && 0 <= i < |kids'[q]|
      ensures kids'[q][i] in parent[c := p] && kids'[q][i] != ROOT && parent[c := p][kids'[q][i]] == q
    {
      if q == p && i > 0 { assert kids'[q][i] == kids[p][i - 1]; }
    }
    forall q, i, j | q in kids' && 0 <= i < j < |kids'[q]| ensures kids'[q][i] != kids'[q][j] {
      if q == p {
        assert kids'[q][j] == kids[p][j - 1];
        if i > 0 { assert kids'[q][i] == kids[p][i - 1]; }
      }
    }
    var parent' := parent[c := p];
    forall q | q in parent' && q != ROOT ensures parent'[q] in parent' && q in kids'[parent'[q]]
    {
      if q == c { assert kids'[p][0] == c; }
      else {
        var i :| 0 <= i < |kids[parent[q]]| && kids[parent[q]][i] == q;
        if parent[q] == p { assert kids'[p][i + 1] == q; }
      }
    }
  }

  lemma GraftThreaded(firstChild: map<PageId, PageId>, nextSibling: map<PageId, PageId>,
                      parent: map<PageId, PageId>, kids: map<PageId, seq<PageId>>, p: PageId, c: PageId)
    requires Nested(parent, kids) && Threaded(firstChild, nextSibling, kids)
    requires p in parent && c !in parent && c != ROOT
    ensures Threaded(firstChild[c := NULL][p := c], nextSibling[c := firstChild[p]],
                     kids[c := []][p := [c] + kids[p]])
  {
    var first', kids' := firstChild[c := NULL][p := c], kids[c := []][p := [c] + kids[p]];
    var next' := nextSibling[c := firstChild[p]];
    assert first'.Keys == kids'.Keys;
    ChainsStay(nextSibling, parent, kids, c, firstChild[p]);
    ChainPush(next', kids[p], c);
    assert Chain(next', []);
    hide Chain, Nested;
    forall q | q in kids' ensures Chain(next', kids'[q]) {
      if q != p && q != c { assert kids'[q] == kids[q]; }
    }
    forall q | q in kids' ensures first'[q] == First(kids'[q]) {
      if q != p && q != c { assert firstChild[q] == First(kids[q]); }
    }
  }

  /** A link of a page that is new leaves all chains as they are. */
  lemma ChainsStay(nextSibling: map<PageId, PageId>, parent: map<PageId, PageId>, kids: map<PageId, seq<PageId>>,
                   c: PageId, x: PageId)
    requires Nested(parent, kids) && c !in parent
    requires forall q {:trigger kids[q]} :: q in kids ==> Chain(nextSibling, kids[q])
    ensures forall q {:trigger kids[q]} :: q in kids ==> Chain(nextSibling[c := x], kids[q])
  {
    forall q | q in kids ensures Chain(nextSibling[c := x], kids[q]) {
      assert Chain(nextSibling, kids[q]);
      forall k | k in kids[q] ensures k != c { KidsAreChildren(parent, kids, q, k); }
      hide Nested, Chain;
      ChainFrame(nextSibling, nextSibling[c := x], kids[q]);
    }
  }

  lemma ChainPush(next: map<PageId, PageId>, ks: seq<PageId>, c: PageId)
    requires Chain(next, ks) && c in next && next[c] == First(ks)
    ensures Chain(next, [c] + ks)
  {
    var cs := [c] + ks;
    forall i | 0 <= i < |cs| ensures ChainsAt(next, cs, i) {
      if i > 0 { assert ChainsAt(next, ks, i - 1); }
    }
  }

  lemma GraftLabelled(parent: map<PageId, PageId>, kids: map<PageId, seq<PageId>>,
                      tokens: map<PageId, seq<Token>>, path: map<PageId, seq<Token>>,
                      p: PageId, c: PageId, text: seq<Token>)
    requires Nested(parent, kids) && Labelled(parent, tokens, path)
    requires p in parent && c !in parent
    requires 0 < |text| <= PAGE_CAPACITY
    requires forall k | k in kids[p] :: k in tokens && tokens[k] != [] && tokens[k][0] != text[0]
    ensures Labelled(parent[c := p], tokens[c := text], path[c := path[p] + text])
  {
    forall q | q in parent && q != ROOT && parent[q] == p ensures tokens[q][0] != text[0] {
      KidsAreChildren(parent, kids, p, q);
    }
  }

  lemma GraftDomain(t: Tree, p: PageId, c: PageId, text: seq<Token>)
    requires SameDomain(t) && p in t.parent && c != NULL
    ensures SameDomain(Graft(t, p, c, text))
  {
  }

  lemma GraftKeeps(t: Tree, p: PageId, c: PageId, text: seq<Token>)
    requires Wf(t) && p in t.parent && c !in t.parent && c != NULL
    requires 0 < |text| <= PAGE_CAPACITY
    requires forall k | k in t.kids[p] :: k in t.tokens && t.tokens[k] != [] && t.tokens[k][0] != text[0]
    ensures Wf(Graft(t, p, c, text))
    ensures View(Graft(t, p, c, text)) == View(t)
  {
    GraftDomain(t, p, c, text);
    GraftNested(t.parent, t.kids, p, c);
    GraftThreaded(t.firstChild, t.nextSibling, t.parent, t.kids, p, c);
    GraftLabelled(t.parent, t.kids, t.tokens, t.path, p, c, text);
    FreshIndexed(t.ids, t.where, c);
    SpelledUnchanged(t.ids, t.where, t.path, t.path[c := t.path[p] + text]);
  }

  lemma FreshIndexed(ids: map<PageId, seq<SeqId>>, where: map<SeqId, PageId>, c: PageId)
    requires Indexed(ids, where) && c !in ids
    ensures Indexed(ids[c := []], where)
  {
  }

  /** If every page that holds a sequence keeps its path, every sequence keeps its tokens. */
  lemma SpelledUnchanged(ids: map<PageId, seq<SeqId>>, where: map<SeqId, PageId>,
                         path: map<PageId, seq<Token>>, path': map<PageId, seq<Token>>)
    requires Indexed(ids, where) && ids.Keys == path.Keys
    requires forall q | q in ids && ids[q] != [] :: q in path' && path'[q] == path[q]
    ensures Spelled(path', where) == Spelled(path, where)
  {
    forall id | id in where
      ensures where[id] in path' && path'[where[id]] == path[where[id]]
    {
      var q := where[id];
      assert q in ids && ids[q] != [];
    }
    assert forall id :: id in Spelled(path, where) <==> id in where;
    assert forall id :: id in Spelled(path', where) <==> id in where;
  }

  // ---------------------------------------------------------------- prune

  ghost function Drop(s: seq<PageId>, k: nat): seq<PageId>
    requires k < |s|
  {
    s[..k] + s[k + 1..]
  }

  /** The first child of p after unlinking c, the k-th page of its chain. */
  function FirstAfterDrop(firstChild: map<PageId, PageId>, nextSibling: map<PageId, PageId>, p: PageId, c: PageId,
                          k: nat):
    map<PageId, PageId>
    requires c in nextSibling
  {
    (if k == 0 then firstChild[p := nextSibling[c]] else firstChild) - {c}
  }

  /** The sibling links after unlinking c, the k-th page of chain ks. */
  function NextAfterDrop(nextSibling: map<PageId, PageId>, ks: seq<PageId>, c: PageId, k: nat): map<PageId, PageId>
    requires c in nextSibling && k < |ks|
  {
    (if k == 0 then nextSibling else nextSibling[ks[k - 1] := nextSibling[c]]) - {c}
  }

  /** Unlink and free leaf c, the k-th child of its parent. */
  ghost function Prune(t: Tree, c: PageId, k: nat): Tree
    requires SameDomain(t) && c in t.parent && t.parent[c] in t.parent
    requires k < |t.kids[t.parent[c]]|
  {
    var p := t.parent[c];
    Tree(t.parent - {c}, FirstAfterDrop(t.firstChild, t.nextSibling, p, c, k),
         NextAfterDrop(t.nextSibling, t.kids[p], c, k),
         t.ids - {c}, t.tokens - {c}, t.where,
         t.kids[p := Drop(t.kids[p], k)] - {c}, t.path - {c})
  }

  lemma PruneNested(parent: map<PageId, PageId>, kids: map<PageId, seq<PageId>>, c: PageId, k: nat)
    requires Nested(parent, kids) && c in parent && c != ROOT && kids[c] == []
    requires k < |kids[parent[c]]| && kids[parent[c]][k] == c
    ensures Nested(parent - {c}, kids[parent[c] := Drop(kids[parent[c]], k)] - {c})
  {
    var p := parent[c];
    var rest := Drop(kids[p], k);
    var kids' := kids[p := rest] - {c};
    forall i | 0 <= i < |rest| ensures rest[i] == kids[p][if i < k then i else i + 1] {}
    forall q, i | q in kids' && 0 <= i < |kids'[q]|
      ensures kids'[q][i] in parent - {c} && kids'[q][i] != ROOT && parent[kids'[q][i]] == q
    {
      if q == p { assert rest[i] == kids[p][if i < k then i else i + 1]; }
    }
    forall q | q in parent - {c} && q != ROOT
      ensures parent[q] in parent - {c} && q in kids'[parent[q]]
    {
      var i :| 0 <= i < |kids[parent[q]]| && kids[parent[q]][i] == q;
      if parent[q] == p { assert rest[if i < k then i else i - 1] == q; }
    }
  }

  lemma ChainDrop(next: map<PageId, PageId>, next': map<PageId, PageId>, ks: seq<PageId>, k: nat)
    requires Chain(next, ks) && k < |ks|
    requires forall i, j :: 0 <= i < j < |ks| ==> ks[i] != ks[j]
    requires forall i | 0 <= i < |ks| && i != k && i != k - 1 ::
               ks[i] in next && ks[i] in next' && next'[ks[i]] == next[ks[i]]
    requires k > 0 ==> ks[k] in next && ks[k - 1] in next' && next'[ks[k - 1]] == next[ks[k]]
    ensures Chain(next', Drop(ks, k))
    ensures ks[k] in next && (k == 0 ==> next[ks[k]] == First(Drop(ks, k)))
  {
    var rest := Drop(ks, k);
    assert ChainsAt(next, ks, k);
    forall i | 0 <= i < |rest| ensures ChainsAt(next', rest, i) {
      var j := if i < k then i else i + 1;
      var x := ks[j];
      assert rest[i] == x;
      assert ChainsAt(next, ks, j);
      if i + 1 < |rest| { assert rest[i + 1] == ks[if i + 1 < k then i + 1 else i + 2]; }
    }
  }

  lemma PruneThreaded(firstChild: map<PageId, PageId>, nextSibling: map<PageId, PageId>,
                      parent: map<PageId, PageId>, kids: map<PageId, seq<PageId>>, c: PageId, k: nat)
    requires Nested(parent, kids) && Threaded(firstChild, nextSibling, kids)
    requires c in parent && c != ROOT && c != parent[c] && kids[c] == []
    requires k < |kids[parent[c]]| && kids[parent[c]][k] == c && c in nextSibling
    ensures Threaded(FirstAfterDrop(firstChild, nextSibling, parent[c], c, k),
                     NextAfterDrop(nextSibling, kids[parent[c]], c, k),
                     kids[parent[c] := Drop(kids[parent[c]], k)] - {c})
  {
    var p := parent[c];
    PruneChain(firstChild, nextSibling, kids, p, c, k);
    PruneOtherChains(firstChild, nextSibling, parent, kids, c, k);
    if k > 0 { assert kids[p][k - 1] != ROOT; }
    PruneLinks(firstChild, nextSibling, kids, p, c, k);
  }

  lemma PruneLinks(firstChild: map<PageId, PageId>, nextSibling: map<PageId, PageId>,
                   kids: map<PageId, seq<PageId>>, p: PageId, c: PageId, k: nat)
    requires Threaded(firstChild, nextSibling, kids)
    requires p in kids && p != c && c in nextSibling && c != ROOT
    requires k < |kids[p]| && (k == 0 ==> nextSibling[c] == First(Drop(kids[p], k)))
    requires k > 0 ==> kids[p][k - 1] != ROOT
    requires forall q | q in kids && q != p && q != c :: Chain(NextAfterDrop(nextSibling, kids[p], c, k), kids[q])
    requires Chain(NextAfterDrop(nextSibling, kids[p], c, k), Drop(kids[p], k))
    ensures Threaded(FirstAfterDrop(firstChild, nextSibling, p, c, k),
                     NextAfterDrop(nextSibling, kids[p], c, k), kids[p := Drop(kids[p], k)] - {c})
  {
    if k > 0 { assert Drop(kids[p], k)[0] == kids[p][0]; }
  }

  lemma PruneOtherChains(firstChild: map<PageId, PageId>, nextSibling: map<PageId, PageId>,
                         parent: map<PageId, PageId>, kids: map<PageId, seq<PageId>>, c: PageId, k: nat)
    requires Nested(parent, kids) && Threaded(firstChild, nextSibling, kids)
    requires c in parent && c != ROOT && c in nextSibling
    requires k < |kids[parent[c]]| && kids[parent[c]][k] == c
    ensures forall q | q in kids && q != parent[c] && q != c ::
              Chain(NextAfterDrop(nextSibling, kids[parent[c]], c, k), kids[q])
  {
    var p := parent[c];
    var ks := kids[p];
    var next' := NextAfterDrop(nextSibling, ks, c, k);
    forall q | q in kids && q != p && q != c ensures Chain(next', kids[q]) {
      forall x | x in kids[q] && x in nextSibling ensures x in next' && next'[x] == nextSibling[x] {
        KidsAreChildren(parent, kids, q, x);
        if k > 0 { assert parent[ks[k - 1]] == p; }
      }
      ChainFrame(nextSibling, next', kids[q]);
    }
  }

  lemma PruneChain(firstChild: map<PageId, PageId>, nextSibling: map<PageId, PageId>,
                   kids: map<PageId, seq<PageId>>, p: PageId, c: PageId, k: nat)
    requires Threaded(firstChild, nextSibling, kids) && p in kids
    requires forall i, j :: 0 <= i < j < |kids[p]| ==> kids[p][i] != kids[p][j]
    requires k < |kids[p]| && kids[p][k] == c && c in nextSibling
    ensures Chain(NextAfterDrop(nextSibling, kids[p], c, k), Drop(kids[p], k))
    ensures p != c && k == 0 ==> nextSibling[c] == First(Drop(kids[p], k))
  {
    var ks := kids[p];
    assert Chain(nextSibling, ks);
    forall i | 0 <= i < |ks| ensures ks[i] in nextSibling { assert ChainsAt(nextSibling, ks, i); }
    ChainDrop(nextSibling, NextAfterDrop(nextSibling, ks, c, k), ks, k);
  }

  lemma PruneDomain(t: Tree, c: PageId, k: nat)
    requires SameDomain(t) && c in t.parent && t.parent[c] in t.parent && c != ROOT && c != t.parent[c]
    requires k < |t.kids[t.parent[c]]|
    requires t.kids[t.parent[c]][if k == 0 then 0 else k - 1] in t.parent
    ensures SameDomain(Prune(t, c, k))
  {
  }

  lemma PruneKeeps(t: Tree, c: PageId, k: nat)
    requires Wf(t) && c in t.parent && c != ROOT && t.kids[c] == [] && t.ids[c] == []
    requires k < |t.kids[t.parent[c]]| && t.kids[t.parent[c]][k] == c
    ensures Wf(Prune(t, c, k))
    ensures View(Prune(t, c, k)) == View(t)
  {
    ParentDiffers(t.parent, t.tokens, t.path, c);
    assert t.kids[t.parent[c]][if k == 0 then 0 else k - 1] in t.parent;
    PruneDomain(t, c, k);
    PruneNested(t.parent, t.kids, c, k);
    PruneThreaded(t.firstChild, t.nextSibling, t.parent, t.kids, c, k);
    PruneLabelled(t.parent, t.kids, t.tokens, t.path, c);
    PruneIndexed(t.ids, t.where, c);
    SpelledUnchanged(t.ids, t.where, t.path, t.path - {c});
  }

  lemma PruneLabelled(parent: map<PageId, PageId>, kids: map<PageId, seq<PageId>>,
                      tokens: map<PageId, seq<Token>>, path: map<PageId, seq<Token>>, c: PageId)
    requires Nested(parent, kids) && Labelled(parent, tokens, path)
    requires c in parent && c != ROOT && kids[c] == []
    ensures Labelled(parent - {c}, tokens - {c}, path - {c})
  {
    forall q | q in parent && q != ROOT && q != c ensures parent[q] != c {
      assert q in kids[parent[q]];
    }
  }

  lemma PruneIndexed(ids: map<PageId, seq<SeqId>>, where: map<SeqId, PageId>, c: PageId)
    requires Indexed(ids, where) && c in ids && ids[c] == []
    ensures Indexed(ids - {c}, where)
  {
  }

  // ---------------------------------------------------------------- retext

  /** Give an empty leaf another text. */
  ghost function Retext(t: Tree, p: PageId, text: seq<Token>): Tree
    requires SameDomain(t) && p in t.parent && t.parent[p] in t.parent
  {
    t.(tokens := t.tokens[p := text], path := t.path[p := t.path[t.parent[p]] + text])
  }

  lemma RetextLabelled(parent: map<PageId, PageId>, kids: map<PageId, seq<PageId>>,
                       tokens: map<PageId, seq<Token>>, path: map<PageId, seq<Token>>, p: PageId, text: seq<Token>)
    requires Nested(parent, kids) && Labelled(parent, tokens, path)
    requires p in parent && p != ROOT && kids[p] == []
    requires 0 < |text| <= PAGE_CAPACITY && text[0] == tokens[p][0]
    ensures Labelled(parent, tokens[p := text], path[p := path[parent[p]] + text])
  {
    forall q | q in parent && q != ROOT ensures parent[q] in parent && parent[q] != p {
      assert q in kids[parent[q]];
    }
  }

  lemma RetextKeeps(t: Tree, p: PageId, text: seq<Token>)
    requires Wf(t) && p in t.parent && p != ROOT && t.kids[p] == [] && t.ids[p] == []
    requires 0 < |text| <= PAGE_CAPACITY && text[0] == t.tokens[p][0]
    ensures Wf(Retext(t, p, text))
    ensures View(Retext(t, p, text)) == View(t)
  {
    RetextLabelled(t.parent, t.kids, t.tokens, t.path, p, text);
    SpelledUnchanged(t.ids, t.where, t.path, t.path[p := t.path[t.parent[p]] + text]);
  }

  // ---------------------------------------------------------------- divide

  /** Hang the pages ks under c. */
  ghost function Rehang(parent: map<PageId, PageId>, ks: seq<PageId>, c: PageId): map<PageId, PageId> {
    map q | q in parent :: if q in ks then c else parent[q]
  }

  /** Point the sequences xs at page c. */
  ghost function Rehome(where: map<SeqId, PageId>, xs: seq<SeqId>, c: PageId): map<SeqId, PageId> {
    map id | id in where :: if id in xs then c else where[id]
  }

  /** Cut page p after its first k tokens; the new page c takes the rest, the children
      and the sequences. */
  ghost function Divide(t: Tree, p: PageId, k: nat, c: PageId): Tree
    requires SameDomain(t) && p in t.parent && t.parent[p] in t.parent && k <= |t.tokens[p]|
  {
    Tree(Rehang(t.parent, t.kids[p], c)[c := p], t.firstChild[c := t.firstChild[p]][p := c],
         t.nextSibling[c := NULL], t.ids[c := t.ids[p]][p := []],
         t.tokens[c := t.tokens[p][k..]][p := t.tokens[p][..k]], Rehome(t.where, t.ids[p], c),
         t.kids[c := t.kids[p]][p := [c]],
         t.path[c := t.path[p]][p := t.path[t.parent[p]] + t.tokens[p][..k]])
  }

  lemma DivideNested(parent: map<PageId, PageId>, kids: map<PageId, seq<PageId>>, p: PageId, c: PageId)
    requires Nested(parent, kids) && p in parent && p != ROOT && c !in parent && c != NULL
    ensures Nested(Rehang(parent, kids[p], c)[c := p], kids[c := kids[p]][p := [c]])
  {
    var parent' := Rehang(parent, kids[p], c)[c := p];
    var kids' := kids[c := kids[p]][p := [c]];
    forall q, i | q in kids' && 0 <= i < |kids'[q]|
      ensures kids'[q][i] in parent' && kids'[q][i] != ROOT && parent'[kids'[q][i]] == q
    {
      if q == c { assert kids[p][i] in kids[p]; }
      else if q != p { assert parent[kids[q][i]] == q; }
    }
    forall q | q in parent' && q != ROOT ensures parent'[q] in parent' && q in kids'[parent'[q]] {
      if q != c { assert q in kids[parent[q]]; }
    }
  }

  lemma DivideThreaded(firstChild: map<PageId, PageId>, nextSibling: map<PageId, PageId>,
                       parent: map<PageId, PageId>, kids: map<PageId, seq<PageId>>, p: PageId, c: PageId)
    requires Nested(parent, kids) && Threaded(firstChild, nextSibling, kids)
    requires p in parent && c !in parent && c != ROOT
    ensures Threaded(firstChild[c := firstChild[p]][p := c], nextSibling[c := NULL], kids[c := kids[p]][p := [c]])
  {
    var first', kids' := firstChild[c := firstChild[p]][p := c], kids[c := kids[p]][p := [c]];
    var next' := nextSibling[c := NULL];
    assert first'.Keys == kids'.Keys;
    ChainsStay(nextSibling, parent, kids, c, NULL);
    assert Chain(next', [c]);
    hide Chain, Nested;
    forall q | q in kids' ensures Chain(next', kids'[q]) {
      if q != p { assert kids'[q] == kids[if q == c then p else q]; }
    }
    forall q | q in kids' ensures first'[q] == First(kids'[q]) {
      if q != p { assert firstChild[if q == c then p else q] == First(kids[if q == c then p else q]); }
    }
  }

  ghost predicate Apart(tokens: map<PageId, seq<Token>>, q: PageId, r: PageId) {
    q in tokens && r in tokens && tokens[q] != [] && tokens[r] != [] && tokens[q][0] != tokens[r][0]
  }

  lemma LabelledFrom(parent: map<PageId, PageId>, tokens: map<PageId, seq<Token>>, path: map<PageId, seq<Token>>)
    requires tokens.Keys == parent.Keys && path.Keys == parent.Keys
    requires ROOT in parent && tokens[ROOT] == [] && path[ROOT] == []
    requires forall q {:trigger Text(parent, tokens, path, q)} :: q in parent && q != ROOT ==>
               Text(parent, tokens, path, q)
    requires forall q, r {:trigger Apart(tokens, q, r)} ::
               q in parent && r in parent && q != ROOT && r != ROOT && q != r && parent[q] == parent[r] ==>
                   Apart(tokens, q, r)
    ensures Labelled(parent, tokens, path)
  {
    forall q | q in parent && q != ROOT
      ensures parent[q] in parent && 0 < |tokens[q]| <= PAGE_CAPACITY && path[q] == path[parent[q]] + tokens[q]
    {
      assert Text(parent, tokens, path, q);
    }
    forall q, r | q in parent && r in parent && q != ROOT && r != ROOT && q != r && parent[q] == parent[r]
      ensures tokens[q][0] != tokens[r][0]
    {
      assert Apart(tokens, q, r);
    }
  }

  lemma DivideLabelled(parent: map<PageId, PageId>, kids: map<PageId, seq<PageId>>,
                       tokens: map<PageId, seq<Token>>, path: map<PageId, seq<Token>>, p: PageId, k: nat, c: PageId)
    requires Nested(parent, kids) && Labelled(parent, tokens, path)
    requires p in parent && p != ROOT && c !in parent && c != NULL && 0 < k < |tokens[p]|
    ensures Labelled(Rehang(parent, kids[p], c)[c := p],
                     tokens[c := tokens[p][k..]][p := tokens[p][..k]],
                     path[c := path[p]][p := path[parent[p]] + tokens[p][..k]])
  {
    var parent' := Rehang(parent, kids[p], c)[c := p];
    var tokens' := tokens[c := tokens[p][k..]][p := tokens[p][..k]];
    var path' := path[c := path[p]][p := path[parent[p]] + tokens[p][..k]];
    assert tokens'.Keys == parent'.Keys && path'.Keys == parent'.Keys;
    assert tokens'[ROOT] == [] && path'[ROOT] == [];
    hide Labelled, Nested, Rehang;
    forall q | q in parent' && q != ROOT ensures Text(parent', tokens', path', q) {
      DivideText(parent, kids, tokens, path, p, k, c, q);
    }
    forall q, r | q in parent' && r in parent' && q != ROOT && r != ROOT && q != r && parent'[q] == parent'[r]
      ensures Apart(tokens', q, r)
    {
      DivideHeads(parent, kids, tokens, path, p, k, c, q, r);
    }
    LabelledFrom(parent', tokens', path');
  }

  lemma DivideText(parent: map<PageId, PageId>, kids: map<PageId, seq<PageId>>,
                   tokens: map<PageId, seq<Token>>, path: map<PageId, seq<Token>>,
                   p: PageId, k: nat, c: PageId, q: PageId)
    requires Nested(parent, kids) && Labelled(parent, tokens, path)
    requires p in parent && p != ROOT && c !in parent && c != NULL && 0 < k < |tokens[p]|
    requires (q in parent && q != ROOT) || q == c
    ensures Text(Rehang(parent, kids[p], c)[c := p], tokens[c := tokens[p][k..]][p := tokens[p][..k]],
                 path[c := path[p]][p := path[parent[p]] + tokens[p][..k]], q)
  {
    DivideSiblings(parent, kids, p, c, q);
    ParentDiffers(parent, tokens, path, p);
    var more := path[parent[p]] + tokens[p][..k];
    if q == c {
      LabelOf(parent, tokens, path, p);
      assert tokens[p] == tokens[p][..k] + tokens[p][k..];
      assert path[p] == more + tokens[p][k..];
    } else {
      LabelOf(parent, tokens, path, q);
    }
    hide Labelled, Nested;
  }

  lemma DivideHeads(parent: map<PageId, PageId>, kids: map<PageId, seq<PageId>>,
                    tokens: map<PageId, seq<Token>>, path: map<PageId, seq<Token>>,
                    p: PageId, k: nat, c: PageId, q: PageId, r: PageId)
    requires Nested(parent, kids) && Labelled(parent, tokens, path)
    requires p in parent && p != ROOT && c !in parent && c != NULL && 0 < k < |tokens[p]|
    requires (q in parent && q != ROOT) || q == c
    requires (r in parent && r != ROOT) || r == c
    requires q != r && Rehang(parent, kids[p], c)[c := p][q] == Rehang(parent, kids[p], c)[c := p][r]
    ensures Apart(tokens[c := tokens[p][k..]][p := tokens[p][..k]], q, r)
  {
    ParentDiffers(parent, tokens, path, p);
    DivideSiblings(parent, kids, p, c, q);
    DivideSiblings(parent, kids, p, c, r);
    assert q != c && r != c && parent[q] == parent[r];
    LabelOf(parent, tokens, path, q);
    LabelOf(parent, tokens, path, r);
  }

  /** Only c hangs under p after the division, and the pages under c hung under p before. */
  lemma DivideSiblings(parent: map<PageId, PageId>, kids: map<PageId, seq<PageId>>, p: PageId, c: PageId, q: PageId)
    requires Nested(parent, kids) && p in parent && c !in parent
    requires (q in parent && q != ROOT) || q == c
    ensures
      var parent' := Rehang(parent, kids[p], c)[c := p];
      && (q == c ==> parent'[q] == p)
      && (q != c && parent[q] == p ==> parent'[q] == c)
      && (q != c && parent[q] != p ==> parent'[q] == parent[q] != c)
  {
    KidsAreChildren(parent, kids, p, q);
  }

  lemma IdsAreHere(ids: map<PageId, seq<SeqId>>, where: map<SeqId, PageId>, p: PageId, id: SeqId)
    requires Indexed(ids, where) && p in ids && id in where
    ensures id in ids[where[id]]
    ensures id in ids[p] <==> where[id] == p
  {
    if id in ids[p] {
      var j :| 0 <= j < |ids[p]| && ids[p][j] == id;
    }
  }

  lemma DivideIndexed(ids: map<PageId, seq<SeqId>>, where: map<SeqId, PageId>, p: PageId, c: PageId)
    requires Indexed(ids, where) && p in ids && c !in ids
    ensures Indexed(ids[c := ids[p]][p := []], Rehome(where, ids[p], c))
  {
    var ids' := ids[c := ids[p]][p := []];
    var where' := Rehome(where, ids[p], c);
    forall q, i | q in ids' && 0 <= i < |ids'[q]| ensures ids'[q][i] in where' && where'[ids'[q][i]] == q {
      if q == c { assert ids[p][i] in ids[p]; }
      else { assert where[ids[q][i]] == q; IdsAreHere(ids, where, p, ids[q][i]); }
    }
    forall id | id in where' ensures where'[id] in ids' && id in ids'[where'[id]] {
      IdsAreHere(ids, where, p, id);
    }
  }

  lemma DivideSpelled(ids: map<PageId, seq<SeqId>>, where: map<SeqId, PageId>,
                      path: map<PageId, seq<Token>>, p: PageId, c: PageId, cut: seq<Token>)
    requires Indexed(ids, where) && ids.Keys == path.Keys && p in ids && c !in ids
    ensures Spelled(path[c := path[p]][p := cut], Rehome(where, ids[p], c)) == Spelled(path, where)
  {
    forall id | id in where ensures (id in ids[p] <==> where[id] == p) && where[id] != c {
      IdsAreHere(ids, where, p, id);
    }
  }

  lemma DivideDomain(t: Tree, p: PageId, k: nat, c: PageId)
    requires SameDomain(t) && p in t.parent && t.parent[p] in t.parent && k <= |t.tokens[p]| && c != NULL
    ensures SameDomain(Divide(t, p, k, c))
  {
  }

  lemma DivideKeeps(t: Tree, p: PageId, k: nat, c: PageId)
    requires Wf(t) && p in t.parent && p != ROOT && c !in t.parent && c != NULL && 0 < k < |t.tokens[p]|
    ensures Wf(Divide(t, p, k, c))
    ensures View(Divide(t, p, k, c)) == View(t)
  {
    DivideDomain(t, p, k, c);
    DivideNested(t.parent, t.kids, p, c);
    DivideThreaded(t.firstChild, t.nextSibling, t.parent, t.kids, p, c);
    DivideLabelled(t.parent, t.kids, t.tokens, t.path, p, k, c);
    DivideIndexed(t.ids, t.where, p, c);
    DivideSpelled(t.ids, t.where, t.path, p, c, t.path[t.parent[p]] + t.tokens[p][..k]);
  }

  // ---------------------------------------------------------------- fuse

  /** Append the only child of p to p; p takes its children and its sequences. */
  ghost function Fuse(t: Tree, p: PageId): Tree
    requires SameDomain(t) && p in t.parent && |t.kids[p]| == 1 && t.kids[p][0] in t.parent
  {
    var c := t.kids[p][0];
    Tree(Rehang(t.parent, t.kids[c], p) - {c}, t.firstChild[p := t.firstChild[c]] - {c},
         t.nextSibling - {c}, t.ids[p := t.ids[c]] - {c},
         t.tokens[p := t.tokens[p] + t.tokens[c]] - {c}, Rehome(t.where, t.ids[c], p),
         t.kids[p := t.kids[c]] - {c}, t.path[p := t.path[c]] - {c})
  }

  lemma FuseNested(parent: map<PageId, PageId>, kids: map<PageId, seq<PageId>>, p: PageId, c: PageId)
    requires Nested(parent, kids) && p in parent && kids[p] == [c] && c != p && c in parent
    ensures Nested(Rehang(parent, kids[c], p) - {c}, kids[p := kids[c]] - {c})
  {
    assert kids[p][0] == c;
    KidsAreChildren(parent, kids, c, c);
    var parent' := Rehang(parent, kids[c], p) - {c};
    var kids' := kids[p := kids[c]] - {c};
    forall q, i | q in kids' && 0 <= i < |kids'[q]|
      ensures kids'[q][i] in parent' && kids'[q][i] != ROOT && parent'[kids'[q][i]] == q
    {
      if q == p { assert kids[c][i] in kids[c]; KidsAreChildren(parent, kids, c, kids[c][i]); }
      else { assert parent[kids[q][i]] == q; KidsAreChildren(parent, kids, c, kids[q][i]); }
    }
    forall q | q in parent' && q != ROOT ensures parent'[q] in parent' && q in kids'[parent'[q]] {
      assert q in kids[parent[q]];
    }
  }

  lemma FuseThreaded(firstChild: map<PageId, PageId>, nextSibling: map<PageId, PageId>,
                     parent: map<PageId, PageId>, kids: map<PageId, seq<PageId>>, p: PageId, c: PageId)
    requires Nested(parent, kids) && Threaded(firstChild, nextSibling, kids)
    requires p in parent && kids[p] == [c] && c != p && c in parent
    ensures Threaded(firstChild[p := firstChild[c]] - {c}, nextSibling - {c}, kids[p := kids[c]] - {c})
  {
    assert kids[p][0] == c && c != ROOT;
    var first', next', kids' := firstChild[p := firstChild[c]] - {c}, nextSibling - {c}, kids[p := kids[c]] - {c};
    forall q | q in kids && q != p ensures Chain(next', kids[q]) {
      KidsAreChildren(parent, kids, q, c);
      assert Chain(nextSibling, kids[q]);
      assert c !in kids[q];
      hide Nested, Chain;
      ChainFrame(nextSibling, next', kids[q]);
    }
    assert first'.Keys == kids'.Keys;
    hide Chain, Nested;
    forall q | q in kids' ensures Chain(next', kids'[q]) {
      assert kids'[q] == kids[if q == p then c else q];
    }
    forall q | q in kids' ensures first'[q] == First(kids'[q]) {
      assert firstChild[if q == p then c else q] == First(kids[if q == p then c else q]);
    }
  }

  lemma FuseLabelled(parent: map<PageId, PageId>, kids: map<PageId, seq<PageId>>,
                     tokens: map<PageId, seq<Token>>, path: map<PageId, seq<Token>>, p: PageId, c: PageId)
    requires Nested(parent, kids) && Labelled(parent, tokens, path)
    requires p in parent && p != ROOT && kids[p] == [c] && c != p && c in parent
    requires |tokens[p]| + |tokens[c]| <= PAGE_CAPACITY
    ensures Labelled(Rehang(parent, kids[c], p) - {c},
                     tokens[p := tokens[p] + tokens[c]] - {c}, path[p := path[c]] - {c})
  {
    var parent' := Rehang(parent, kids[c], p) - {c};
    var tokens' := tokens[p := tokens[p] + tokens[c]] - {c};
    var path' := path[p := path[c]] - {c};
    FuseFrame(parent, kids, tokens, path, p, c);
    hide Labelled, Nested, Rehang;
    forall q | q in parent' && q != ROOT ensures Text(parent', tokens', path', q) {
      FuseText(parent, kids, tokens, path, p, c, q);
    }
    forall q, r | q in parent' && r in parent' && q != ROOT && r != ROOT && q != r && parent'[q] == parent'[r]
      ensures Apart(tokens', q, r)
    {
      FuseHeads(parent, kids, tokens, path, p, c, q, r);
    }
    LabelledFrom(parent', tokens', path');
  }

  lemma FuseFrame(parent: map<PageId, PageId>, kids: map<PageId, seq<PageId>>,
                  tokens: map<PageId, seq<Token>>, path: map<PageId, seq<Token>>, p: PageId, c: PageId)
    requires Nested(parent, kids) && Labelled(parent, tokens, path)
    requires p in parent && p != ROOT && kids[p] == [c] && c != p && c in parent
    ensures
      var parent' := Rehang(parent, kids[c], p) - {c};
      var tokens' := tokens[p := tokens[p] + tokens[c]] - {c};
      var path' := path[p := path[c]] - {c};
      && tokens'.Keys == parent'.Keys && path'.Keys == parent'.Keys
      && ROOT in parent' && tokens'[ROOT] == [] && path'[ROOT] == []
  {
    assert kids[p][0] == c;
  }

  lemma FuseText(parent: map<PageId, PageId>, kids: map<PageId, seq<PageId>>,
                 tokens: map<PageId, seq<Token>>, path: map<PageId, seq<Token>>, p: PageId, c: PageId, q: PageId)
    requires Nested(parent, kids) && Labelled(parent, tokens, path)
    requires p in parent && p != ROOT && kids[p] == [c] && c != p && c in parent
    requires |tokens[p]| + |tokens[c]| <= PAGE_CAPACITY
    requires q in Rehang(parent, kids[c], p) - {c} && q != ROOT
    ensures Text(Rehang(parent, kids[c], p) - {c}, tokens[p := tokens[p] + tokens[c]] - {c}, path[p := path[c]] - {c},
                 q)
  {
    assert kids[p][0] == c;
    FuseSiblings(parent, kids, p, c, q);
    LabelOf(parent, tokens, path, q);
    if q == p {
      ParentDiffers(parent, tokens, path, p);
      KidDiffers(parent, kids, tokens, path, p, c);
      LabelOf(parent, tokens, path, c);
      assert path[c] == path[parent[p]] + (tokens[p] + tokens[c]);
    }
    hide Labelled, Nested;
  }

  lemma FuseHeads(parent: map<PageId, PageId>, kids: map<PageId, seq<PageId>>,
                  tokens: map<PageId, seq<Token>>, path: map<PageId, seq<Token>>, p: PageId, c: PageId, q: PageId,
                  r: PageId)
    requires Nested(parent, kids) && Labelled(parent, tokens, path)
    requires p in parent && p != ROOT && kids[p] == [c] && c != p && c in parent
    requires q in Rehang(parent, kids[c], p) - {c} && r in Rehang(parent, kids[c], p) - {c}
    requires q != ROOT && r != ROOT && q != r
    requires (Rehang(parent, kids[c], p) - {c})[q] == (Rehang(parent, kids[c], p) - {c})[r]
    ensures Apart(tokens[p := tokens[p] + tokens[c]] - {c}, q, r)
  {
    FuseSiblings(parent, kids, p, c, q);
    FuseSiblings(parent, kids, p, c, r);
  }

  /** The pages under p after the fusion hung under c before. */
  lemma FuseSiblings(parent: map<PageId, PageId>, kids: map<PageId, seq<PageId>>, p: PageId, c: PageId, q: PageId)
    requires Nested(parent, kids) && p in parent && kids[p] == [c] && c != p && c in parent
    requires q in parent && q != ROOT && q != c
    ensures
      var parent' := Rehang(parent, kids[c], p) - {c};
      && parent[q] != p
      && (parent[q] == c ==> parent'[q] == p)
      && (parent[q] != c ==> parent'[q] == parent[q])
  {
    KidsAreChildren(parent, kids, p, q);
    KidsAreChildren(parent, kids, c, q);
  }

  lemma FuseIndexed(ids: map<PageId, seq<SeqId>>, where: map<SeqId, PageId>, p: PageId, c: PageId)
    requires Indexed(ids, where) && p in ids && c in ids && p != c && ids[p] == []
    ensures Indexed(ids[p := ids[c]] - {c}, Rehome(where, ids[c], p))
  {
    var ids' := ids[p := ids[c]] - {c};
    var where' := Rehome(where, ids[c], p);
    forall q, i | q in ids' && 0 <= i < |ids'[q]| ensures ids'[q][i] in where' && where'[ids'[q][i]] == q {
      if q == p { assert ids[c][i] in ids[c]; assert where[ids[c][i]] == c; }
      else { assert where[ids[q][i]] == q; IdsAreHere(ids, where, c, ids[q][i]); }
    }
    forall id | id in where' ensures where'[id] in ids' && id in ids'[where'[id]] {
      IdsAreHere(ids, where, c, id);
    }
  }

  lemma FuseSpelled(ids: map<PageId, seq<SeqId>>, where: map<SeqId, PageId>,
                    path: map<PageId, seq<Token>>, p: PageId, c: PageId)
    requires Indexed(ids, where) && ids.Keys == path.Keys && p in ids && c in ids && p != c && ids[p] == []
    ensures Spelled(path[p := path[c]] - {c}, Rehome(where, ids[c], p)) == Spelled(path, where)
  {
    forall id | id in where ensures (id in ids[c] <==> where[id] == c) && where[id] != p {
      IdsAreHere(ids, where, c, id);
    }
  }

  lemma FuseDomain(t: Tree, p: PageId)
    requires SameDomain(t) && p in t.parent && |t.kids[p]| == 1 && t.kids[p][0] in t.parent
    requires t.kids[p][0] != p && t.kids[p][0] != ROOT
    ensures SameDomain(Fuse(t, p))
  {
    var c := t.kids[p][0];
    var kept := t.parent.Keys - {c};
    assert (Rehang(t.parent, t.kids[c], p) - {c}).Keys == kept;
    assert (t.firstChild[p := t.firstChild[c]] - {c}).Keys == kept && (t.nextSibling - {c}).Keys == kept;
    assert (t.ids[p := t.ids[c]] - {c}).Keys == kept && (t.kids[p := t.kids[c]] - {c}).Keys == kept;
  }

  lemma FuseKeeps(t: Tree, p: PageId)
    requires Wf(t) && p in t.parent && p != ROOT && |t.kids[p]| == 1 && t.ids[p] == []
    requires t.kids[p][0] in t.tokens && |t.tokens[p]| + |t.tokens[t.kids[p][0]]| <= PAGE_CAPACITY
    ensures Wf(Fuse(t, p))
    ensures View(Fuse(t, p)) == View(t)
  {
    var c := t.kids[p][0];
    assert t.kids[p][0] in t.kids[p];
    KidDiffers(t.parent, t.kids, t.tokens, t.path, p, c);
    FuseDomain(t, p);
    FuseNested(t.parent, t.kids, p, c);
    FuseThreaded(t.firstChild, t.nextSibling, t.parent, t.kids, p, c);
    FuseLabelled(t.parent, t.kids, t.tokens, t.path, p, c);
    FuseIndexed(t.ids, t.where, p, c);
    FuseSpelled(t.ids, t.where, t.path, p, c);
  }
}
