/** The paged radix tree as a value: an arena of pages addressed by pool index, the
    sequence index, and two derived maps that make the links and the spelled-out
    prefixes explicit. Every in-place step of the tree is one function here, with the
    lemmas saying what the step keeps. */
module RadixPages {

  type PageId = int
  type SeqId = int
  type Token = int

  /** The page that represents the empty prefix; it lives outside the pool. */
  const ROOT: PageId := -1
  /** The null page pointer. */
  const NULL: PageId := -2
  const PAGE_CAPACITY: nat := 64

  /** One map per field of a radix page, keyed by page. `ids` is the linked list of
      sequence ids, head first; `tokens` is the used part of the token buffer, so its
      size is the page length. Derived: `kids[p]` is the sibling chain below p in link
      order, and `path[p]` is the prefix spelled from the root to the end of page p. */
  datatype Tree = Tree(parent: map<PageId, PageId>, firstChild: map<PageId, PageId>,
                       nextSibling: map<PageId, PageId>,
                       ids: map<PageId, seq<SeqId>>, tokens: map<PageId, seq<Token>>,
                       where: map<SeqId, PageId>,
                       kids: map<PageId, seq<PageId>>, path: map<PageId, seq<Token>>)

  /** The root has no room for tokens, which is why it is never merged into. */
  function Capacity(p: PageId): nat {
    if p == ROOT then 0 else PAGE_CAPACITY
  }

  // ---------------------------------------------------------------- invariant

  ghost predicate SameDomain(t: Tree) {
    && t.firstChild.Keys == t.parent.Keys
    && t.nextSibling.Keys == t.parent.Keys
    && t.ids.Keys == t.parent.Keys
    && t.tokens.Keys == t.parent.Keys
    && t.kids.Keys == t.parent.Keys
    && t.path.Keys == t.parent.Keys
    && ROOT in t.parent && NULL !in t.parent
  }

  /** Parents and sibling chains describe one ordered tree. */
  ghost predicate Nested(parent: map<PageId, PageId>, kids: map<PageId, seq<PageId>>) {
    && kids.Keys == parent.Keys
    && ROOT in parent && NULL !in parent && parent[ROOT] == NULL
    && (forall p {:trigger parent[p]} :: p in parent && p != ROOT ==>
          parent[p] in parent && p in kids[parent[p]])
    && (forall p, i {:trigger kids[p][i]} :: p in parent && 0 <= i < |kids[p]| ==>
          kids[p][i] in parent && kids[p][i] != ROOT && parent[kids[p][i]] == p)
    && (forall p, i, j {:trigger kids[p][i], kids[p][j]} ::
          p in parent && 0 <= i < j < |kids[p]| ==> kids[p][i] != kids[p][j])
  }

  function First(ks: seq<PageId>): PageId {
    if ks == [] then NULL else ks[0]
  }

  /** The i-th page of ks links to the one after it, and the last one to NULL. */
  ghost predicate ChainsAt(nextSibling: map<PageId, PageId>, ks: seq<PageId>, i: nat)
    requires i < |ks|
  {
    && ks[i] in nextSibling
    && nextSibling[ks[i]] == if i + 1 < |ks| then ks[i + 1] else NULL
  }

  ghost predicate Chain(nextSibling: map<PageId, PageId>, ks: seq<PageId>) {
    forall i {:trigger ChainsAt(nextSibling, ks, i)} {:trigger nextSibling[ks[i]]} ::
      0 <= i < |ks| ==> ChainsAt(nextSibling, ks, i)
  }

  /** The first-child and next-sibling links thread exactly the sibling chains. */
  ghost predicate Threaded(firstChild: map<PageId, PageId>, nextSibling: map<PageId, PageId>,
                           kids: map<PageId, seq<PageId>>) {
    && firstChild.Keys == kids.Keys
    && ROOT in nextSibling && nextSibling[ROOT] == NULL
    && (forall p {:trigger firstChild[p]} :: p in kids ==> firstChild[p] == First(kids[p]))
    && (forall p {:trigger Chain(nextSibling, kids[p])} :: p in kids ==> Chain(nextSibling, kids[p]))
  }

  /** Page contents: bounded, non-empty below the root, consistent with `path`, and
      the children of one page start with different tokens. */
  ghost predicate Labelled(parent: map<PageId, PageId>, tokens: map<PageId, seq<Token>>,
                           path: map<PageId, seq<Token>>) {
    && tokens.Keys == parent.Keys && path.Keys == parent.Keys
    && ROOT in parent && tokens[ROOT] == [] && path[ROOT] == []
    && (forall p {:trigger tokens[p]} :: p in parent && p != ROOT ==>
          && parent[p] in parent
          && 0 < |tokens[p]| <= PAGE_CAPACITY
          && path[p] == path[parent[p]] + tokens[p])
    && (forall p, q {:trigger tokens[p], tokens[q]} ::
          (p in parent && q in parent && p != ROOT && q != ROOT && p != q && parent[p] == parent[q])
          ==> tokens[p][0] != tokens[q][0])
  }

  /** The sequence index and the per-page id lists agree, and no id is listed twice. */
  ghost predicate Indexed(ids: map<PageId, seq<SeqId>>, where: map<SeqId, PageId>) {
    && (forall id {:trigger where[id]} {:trigger id in where} :: id in where ==>
          where[id] in ids && id in ids[where[id]])
    && (forall p, i {:trigger ids[p][i]} :: p in ids && 0 <= i < |ids[p]| ==>
          ids[p][i] in where && where[ids[p][i]] == p)
    && (forall p, i, j {:trigger ids[p][i], ids[p][j]} ::
          p in ids && 0 <= i < j < |ids[p]| ==> ids[p][i] != ids[p][j])
  }

  ghost predicate Wf(t: Tree) {
    && SameDomain(t)
    && Nested(t.parent, t.kids)
    && Threaded(t.firstChild, t.nextSibling, t.kids)
    && Labelled(t.parent, t.tokens, t.path)
    && Indexed(t.ids, t.where)
  }

  /** Every page below the root that has no child holds a sequence, except perhaps x. */
  ghost predicate LeafyExcept(t: Tree, x: PageId)
    requires SameDomain(t)
  {
    forall p {:trigger t.kids[p]} :: p in t.parent && p != ROOT && p != x && t.kids[p] == [] ==> t.ids[p] != []
  }

  ghost predicate Leafy(t: Tree)
    requires SameDomain(t)
  {
    LeafyExcept(t, NULL)
  }

  /** What the tree means: the tokens of each sequence. */
  ghost function Spelled(path: map<PageId, seq<Token>>, where: map<SeqId, PageId>): map<SeqId, seq<Token>> {
    map id | id in where && where[id] in path :: path[where[id]]
  }

  ghost function View(t: Tree): map<SeqId, seq<Token>> {
    Spelled(t.path, t.where)
  }

  lemma KidsAreChildren(parent: map<PageId, PageId>, kids: map<PageId, seq<PageId>>, p: PageId, q: PageId)
    requires Nested(parent, kids) && p in parent
    ensures q in kids[p] <==> q in parent && q != ROOT && parent[q] == p
  {
    if q in kids[p] {
      var i :| 0 <= i < |kids[p]| && kids[p][i] == q;
    }
  }

  lemma KidDiffers(parent: map<PageId, PageId>, kids: map<PageId, seq<PageId>>,
                   tokens: map<PageId, seq<Token>>, path: map<PageId, seq<Token>>, p: PageId, q: PageId)
    requires Nested(parent, kids) && Labelled(parent, tokens, path)
    requires p in parent && q in kids[p]
    ensures q in parent && q != ROOT && q != p && parent[q] == p
    ensures |path[q]| == |path[p]| + |tokens[q]|
  {
    KidsAreChildren(parent, kids, p, q);
    assert path[q] == path[p] + tokens[q];
  }

  /** The text of page q is bounded and ends its path. */
  ghost predicate Text(parent: map<PageId, PageId>, tokens: map<PageId, seq<Token>>, path: map<PageId, seq<Token>>,
                       q: PageId) {
    && q in parent && q in tokens && q in path && parent[q] in parent && parent[q] in path
    && 0 < |tokens[q]| <= PAGE_CAPACITY && path[q] == path[parent[q]] + tokens[q]
  }

  lemma LabelOf(parent: map<PageId, PageId>, tokens: map<PageId, seq<Token>>, path: map<PageId, seq<Token>>, q: PageId)
    requires Labelled(parent, tokens, path) && q in parent && q != ROOT
    ensures Text(parent, tokens, path, q)
  {
  }

  /** A page and its parent are different pages. */
  lemma ParentDiffers(parent: map<PageId, PageId>, tokens: map<PageId, seq<Token>>,
                      path: map<PageId, seq<Token>>, q: PageId)
    requires Labelled(parent, tokens, path) && q in parent && q != ROOT
    ensures parent[q] in parent && parent[q] != q
    ensures |path[q]| == |path[parent[q]]| + |tokens[q]|
  {
    assert path[q] == path[parent[q]] + tokens[q];
  }

  lemma ChainFrame(nextSibling: map<PageId, PageId>, next': map<PageId, PageId>, ks: seq<PageId>)
    requires Chain(nextSibling, ks)
    requires forall k | k in ks && k in nextSibling :: k in next' && next'[k] == nextSibling[k]
    ensures Chain(next', ks)
  {
    forall i | 0 <= i < |ks| ensures ChainsAt(next', ks, i) {
      assert ChainsAt(nextSibling, ks, i);
      var k := ks[i];
      assert k in nextSibling && k in ks;
    }
  }

  // ---------------------------------------------------------------- steps on id lists

  function Without(s: seq<SeqId>, id: SeqId): (r: seq<SeqId>)
  {
    if s == [] then [] else if s[0] == id then s[1..] else [s[0]] + Without(s[1..], id)
  }

  ghost function AddId(t: Tree, p: PageId, id: SeqId): Tree
    requires p in t.ids
  {
    t.(ids := t.ids[p := [id] + t.ids[p]], where := t.where[id := p])
  }

  /** A sequence is listed in front of the others. */
  lemma ListedFirst(t: Tree, p: PageId, id: SeqId)
    requires p in t.ids
    ensures AddId(t, p, id).ids[p] == [id] + t.ids[p] && AddId(t, p, id).where[id] == p
  {
  }

  ghost function PopId(t: Tree, p: PageId, id: SeqId): Tree
    requires p in t.ids
  {
    t.(ids := t.ids[p := Without(t.ids[p], id)], where := t.where - {id})
  }

  lemma {:induction false} WithoutMeaning(s: seq<SeqId>, id: SeqId)
    requires forall i, j :: 0 <= i < j < |s| ==> s[i] != s[j]
    ensures forall x :: x in Without(s, id) <==> x in s && x != id
    ensures forall i, j :: 0 <= i < j < |Without(s, id)| ==> Without(s, id)[i] != Without(s, id)[j]
  {
    if s == [] {
    } else {
      var rest := Without(s[1..], id);
      WithoutMeaning(s[1..], id);
      assert s == [s[0]] + s[1..];
      if s[0] != id {
        assert forall x :: x in Without(s, id) <==> x == s[0] || x in rest;
        assert s[0] !in s[1..];
        forall i, j | 0 <= i < j < |Without(s, id)| ensures Without(s, id)[i] != Without(s, id)[j] {
          assert Without(s, id)[j] == rest[j - 1];
          if i > 0 { assert Without(s, id)[i] == rest[i - 1]; } else { assert rest[j - 1] in rest; }
        }
      }
    }
  }

  lemma AddIdIndexed(ids: map<PageId, seq<SeqId>>, where: map<SeqId, PageId>, p: PageId, id: SeqId)
    requires Indexed(ids, where) && p in ids && id !in where
    ensures Indexed(ids[p := [id] + ids[p]], where[id := p])
  {
    var ids' := ids[p := [id] + ids[p]];
    forall q, i | q in ids' && 0 <= i < |ids'[q]|
      ensures ids'[q][i] in where[id := p] && where[id := p][ids'[q][i]] == q
    {
      if q == p && i > 0 { assert ids'[q][i] == ids[p][i - 1]; }
    }
    forall q, i, j | q in ids' && 0 <= i < j < |ids'[q]| ensures ids'[q][i] != ids'[q][j] {
      if q == p {
        assert ids'[q][j] == ids[p][j - 1];
        if i > 0 { assert ids'[q][i] == ids[p][i - 1]; }
      }
    }
  }

  lemma AddIdSpelled(path: map<PageId, seq<Token>>, where: map<SeqId, PageId>, p: PageId, id: SeqId)
    requires p in path
    ensures Spelled(path, where[id := p]) == Spelled(path, where)[id := path[p]]
  {
  }

  lemma AddIdKeeps(t: Tree, p: PageId, id: SeqId)
    requires Wf(t) && p in t.parent && id !in t.where
    ensures Wf(AddId(t, p, id))
    ensures View(AddId(t, p, id)) == View(t)[id := t.path[p]]
  {
    AddIdIndexed(t.ids, t.where, p, id);
    AddIdSpelled(t.path, t.where, p, id);
  }

  lemma PopIdIndexed(ids: map<PageId, seq<SeqId>>, where: map<SeqId, PageId>, id: SeqId)
    requires Indexed(ids, where) && id in where
    ensures Indexed(ids[where[id] := Without(ids[where[id]], id)], where - {id})
  {
    var p := where[id];
    var ids' := ids[p := Without(ids[p], id)];
    WithoutMeaning(ids[p], id);
    forall q, i | q in ids' && 0 <= i < |ids'[q]|
      ensures ids'[q][i] in where - {id} && where[ids'[q][i]] == q
    {
      assert ids'[q][i] in ids'[q];
      assert ids'[q][i] in ids[q];
    }
  }

  lemma PopIdSpelled(path: map<PageId, seq<Token>>, where: map<SeqId, PageId>, id: SeqId)
    ensures Spelled(path, where - {id}) == Spelled(path, where) - {id}
  {
  }

  lemma PopIdKeeps(t: Tree, id: SeqId)
    requires Wf(t) && id in t.where
    ensures Wf(PopId(t, t.where[id], id))
    ensures View(PopId(t, t.where[id], id)) == View(t) - {id}
  {
    PopIdIndexed(t.ids, t.where, id);
    PopIdSpelled(t.path, t.where, id);
  }
}
