/** Where a prefix lives in the page tree: descendants, the page that covers a prefix,
    and why the walk that stops at the first mismatch finds every longest match. */
module RadixSearch {
  import opened Sequences
  import opened RadixPages

  /** Page q is page a or hangs somewhere below it. */
  ghost predicate Under(t: Tree, a: PageId, q: PageId)
    requires Labelled(t.parent, t.tokens, t.path) && q in t.parent
    decreases |t.path[q]|
  {
    a == q || (q != ROOT && Climbs(t, q) && Under(t, a, t.parent[q]))
  }

  /** Moving to the parent shortens the path; always true, stated for termination. */
  ghost predicate Climbs(t: Tree, q: PageId)
    requires Labelled(t.parent, t.tokens, t.path) && q in t.parent && q != ROOT
    ensures Climbs(t, q)
  {
    ParentDiffers(t.parent, t.tokens, t.path, q);
    t.parent[q] in t.parent && |t.path[t.parent[q]]| < |t.path[q]|
  }

  lemma {:induction false} AllUnderRoot(t: Tree, q: PageId)
    requires Labelled(t.parent, t.tokens, t.path) && q in t.parent
    ensures Under(t, ROOT, q)
    decreases |t.path[q]|
  {
    if q != ROOT {
      ParentDiffers(t.parent, t.tokens, t.path, q);
      AllUnderRoot(t, t.parent[q]);
    }
  }

  lemma {:induction false} UnderExtends(t: Tree, a: PageId, q: PageId)
    requires Labelled(t.parent, t.tokens, t.path) && q in t.parent && a in t.parent && Under(t, a, q)
    ensures t.path[a] <= t.path[q]
    decreases |t.path[q]|
  {
    if a != q {
      ParentDiffers(t.parent, t.tokens, t.path, q);
      UnderExtends(t, a, t.parent[q]);
      assert t.path[q] == t.path[t.parent[q]] + t.tokens[q];
    }
  }

  lemma {:induction false} UnderTransitive(t: Tree, a: PageId, b: PageId, q: PageId)
    requires Labelled(t.parent, t.tokens, t.path) && q in t.parent && b in t.parent
    requires Under(t, a, b) && Under(t, b, q)
    ensures Under(t, a, q)
    decreases |t.path[q]|
  {
    if b != q {
      ParentDiffers(t.parent, t.tokens, t.path, q);
      UnderTransitive(t, a, b, t.parent[q]);
    }
  }

  /** The child of a on the way down to q. */
  lemma {:induction false} Toward(t: Tree, a: PageId, q: PageId) returns (c: PageId)
    requires Labelled(t.parent, t.tokens, t.path) && q in t.parent && a in t.parent && Under(t, a, q) && a != q
    ensures c in t.parent && c != ROOT && t.parent[c] == a && Under(t, c, q)
    decreases |t.path[q]|
  {
    ParentDiffers(t.parent, t.tokens, t.path, q);
    if t.parent[q] == a {
      c := q;
    } else {
      c := Toward(t, a, t.parent[q]);
    }
  }

  /** The first token of a child is the token its parent's path is continued with. */
  lemma HeadContinues(t: Tree, c: PageId, q: PageId)
    requires Labelled(t.parent, t.tokens, t.path) && q in t.parent && c in t.parent && c != ROOT && Under(t, c, q)
    ensures t.parent[c] in t.parent
    ensures t.tokens[c] != [] && |t.path[t.parent[c]]| < |t.path[q]|
    ensures t.tokens[c][0] == t.path[q][|t.path[t.parent[c]]|]
  {
    UnderExtends(t, c, q);
    ParentDiffers(t.parent, t.tokens, t.path, c);
    var n := |t.path[t.parent[c]]|;
    assert t.path[c] == t.path[t.parent[c]] + t.tokens[c];
    assert t.path[c][n] == t.tokens[c][0];
  }

  /** If q spells the first k tokens of p, and the k-th lies inside p, then q is under p. */
  lemma {:induction false} Covering(t: Tree, p: PageId, q: PageId, k: nat)
    requires Labelled(t.parent, t.tokens, t.path) && p in t.parent && q in t.parent && p != ROOT
    requires t.parent[p] in t.parent && |t.path[t.parent[p]]| < k <= |t.path[p]| && k <= |t.path[q]|
    requires t.path[p][..k] == t.path[q][..k]
    ensures Under(t, p, q)
    decreases |t.path[p]|
  {
    ParentDiffers(t.parent, t.tokens, t.path, p);
    var pp := t.parent[p];
    var n := |t.path[pp]|;
    assert t.path[p] == t.path[pp] + t.tokens[p];
    assert t.path[q][n] == t.path[p][n] == t.tokens[p][0] by {
      assert t.path[p][..k][n] == t.path[q][..k][n];
    }
    if pp == ROOT {
      AllUnderRoot(t, q);
    } else {
      ParentDiffers(t.parent, t.tokens, t.path, pp);
      assert t.path[pp][..n] == t.path[p][..k][..n] == t.path[q][..k][..n] == t.path[q][..n];
      Covering(t, pp, q, n);
    }
    assert pp != q;
    var c := Toward(t, pp, q);
    HeadContinues(t, c, q);
    assert c == p;
  }

  // ---------------------------------------------------------------- matching

  /** Both lists start with the same k tokens. */
  predicate Share(a: seq<Token>, b: seq<Token>, k: nat) {
    k <= |a| && k <= |b| && a[..k] == b[..k]
  }

  lemma ShareAt(a: seq<Token>, b: seq<Token>, k: nat, i: nat)
    requires Share(a, b, k) && i < k
    ensures a[i] == b[i]
  {
    assert a[..k][i] == b[..k][i];
  }

  lemma SharePrefix(a: seq<Token>, b: seq<Token>, k: nat, i: nat)
    requires Share(a, b, k) && i <= k
    ensures Share(a, b, i)
  {
    assert a[..k][..i] == a[..i] && b[..k][..i] == b[..i];
  }

  /** Where a walk from `start` along `text` stops: after `offset` tokens, `inPage`
      tokens into `page`, at the end of the text or at the first mismatch. */
  ghost predicate Stops(t: Tree, start: PageId, text: seq<Token>, page: PageId, offset: nat, inPage: nat)
    requires SameDomain(t) && Labelled(t.parent, t.tokens, t.path) && start in t.parent
  {
    && page in t.parent && Under(t, start, page)
    && offset <= |text| && inPage <= |t.tokens[page]| <= |t.path[page]|
    && t.path[start] + text[..offset] == t.path[page][..|t.path[page]| - |t.tokens[page]| + inPage]
    && (inPage < |t.tokens[page]| ==>
          && page != start && 0 < inPage
          && (offset < |text| ==> text[offset] != t.tokens[page][inPage]))
    && (inPage == |t.tokens[page]| && offset < |text| ==> NoChildStarts(t, page, text[offset]))
  }

  ghost predicate NoChildStarts(t: Tree, p: PageId, token: Token) {
    forall c {:trigger t.tokens[c]} :: c in t.parent && c in t.tokens && c != ROOT && t.parent[c] == p ==>
      t.tokens[c] != [] && t.tokens[c][0] != token
  }

  /** Every page that spells the matched prefix is under the page where the walk stopped. */
  lemma MatcherIsUnder(t: Tree, text: seq<Token>, page: PageId, offset: nat, inPage: nat, q: PageId)
    requires SameDomain(t) && Labelled(t.parent, t.tokens, t.path)
    requires Stops(t, ROOT, text, page, offset, inPage)
    requires q in t.parent && Share(t.path[q], text, offset)
    ensures Under(t, page, q)
  {
    assert text[..offset] == t.path[page][..|t.path[page]| - |t.tokens[page]| + inPage];
    if page == ROOT {
      AllUnderRoot(t, q);
    } else {
      ParentDiffers(t.parent, t.tokens, t.path, page);
      Covering(t, page, q, offset);
    }
  }

  /** A page below the stopping page does not continue the way the text does. */
  lemma WalkStopsForAReason(t: Tree, text: seq<Token>, page: PageId, offset: nat, inPage: nat, q: PageId)
    requires SameDomain(t) && Labelled(t.parent, t.tokens, t.path)
    requires Stops(t, ROOT, text, page, offset, inPage)
    requires q in t.parent && Under(t, page, q) && offset < |text| && offset < |t.path[q]|
    ensures t.path[q][offset] != text[offset]
  {
    assert text[..offset] == t.path[page][..|t.path[page]| - |t.tokens[page]| + inPage];
    UnderExtends(t, page, q);
    if inPage < |t.tokens[page]| {
      LabelOf(t.parent, t.tokens, t.path, page);
      hide Labelled;
      assert t.path[page][offset] == t.tokens[page][inPage];
    } else {
      var c := Toward(t, page, q);
      HeadContinues(t, c, q);
    }
  }

  /** No page spells more of the text than the walk from the root matched. */
  lemma NothingLonger(t: Tree, text: seq<Token>, page: PageId, offset: nat, inPage: nat, q: PageId, k: nat)
    requires SameDomain(t) && Labelled(t.parent, t.tokens, t.path)
    requires Stops(t, ROOT, text, page, offset, inPage)
    requires q in t.parent && Share(t.path[q], text, k)
    ensures k <= offset
  {
    if k > offset {
      SharePrefix(t.path[q], text, k, offset);
      MatcherIsUnder(t, text, page, offset, inPage, q);
      ShareAt(t.path[q], text, k, offset);
      WalkStopsForAReason(t, text, page, offset, inPage, q);
    }
  }

  /** When something matched, the pages that spell the matched prefix are exactly those
      under the page where the walk stopped. */
  lemma MatchersAreUnder(t: Tree, text: seq<Token>, page: PageId, offset: nat, inPage: nat, q: PageId)
    requires SameDomain(t) && Labelled(t.parent, t.tokens, t.path)
    requires Stops(t, ROOT, text, page, offset, inPage) && 0 < offset
    requires q in t.parent
    ensures Share(t.path[q], text, offset) <==> Under(t, page, q)
    ensures page != ROOT
  {
    assert text[..offset] == t.path[page][..|t.path[page]| - |t.tokens[page]| + inPage];
    if Share(t.path[q], text, offset) {
      MatcherIsUnder(t, text, page, offset, inPage, q);
    }
    if Under(t, page, q) {
      UnderExtends(t, page, q);
      assert t.path[q][..offset] == t.path[page][..offset];
    }
  }

  // ---------------------------------------------------------------- subtrees

  ghost function Subtree(t: Tree, p: PageId): (r: set<PageId>)
    requires Labelled(t.parent, t.tokens, t.path)
  {
    set q | q in t.parent && Under(t, p, q)
  }

  lemma ChildSubtree(t: Tree, p: PageId, c: PageId)
    requires Labelled(t.parent, t.tokens, t.path) && p in t.parent && c in t.parent && c != ROOT && t.parent[c] == p
    ensures Subtree(t, c) < Subtree(t, p)
  {
    ParentDiffers(t.parent, t.tokens, t.path, c);
    assert Under(t, p, c);
    forall q | q in Subtree(t, c) ensures q in Subtree(t, p) && q != p {
      UnderTransitive(t, p, c, q);
      UnderExtends(t, c, q);
    }
    assert p in Subtree(t, p);
  }

  /** Below every page but the root there is a stored sequence. */
  lemma {:induction false} SubtreeHoldsSequence(t: Tree, p: PageId) returns (id: SeqId)
    requires Wf(t) && Leafy(t) && p in t.parent && p != ROOT
    ensures id in t.where && t.where[id] in t.parent && Under(t, p, t.where[id])
    decreases Subtree(t, p)
  {
    if t.kids[p] == [] {
      id := t.ids[p][0];
    } else {
      var c := t.kids[p][0];
      assert c in t.kids[p];
      KidsAreChildren(t.parent, t.kids, p, c);
      ChildSubtree(t, p, c);
      assert Under(t, p, c) by { ParentDiffers(t.parent, t.tokens, t.path, c); }
      id := SubtreeHoldsSequence(t, c);
      UnderTransitive(t, p, c, t.where[id]);
    }
  }

  // ---------------------------------------------------------------- traversal

  /** Page x hangs at or below the i-th or a later child of q. */
  ghost predicate InRest(t: Tree, q: PageId, i: nat, x: PageId)
    requires Labelled(t.parent, t.tokens, t.path) && q in t.kids && x in t.parent
  {
    exists j {:trigger t.kids[q][j]} :: i <= j < |t.kids[q]| && Under(t, t.kids[q][j], x)
  }

  ghost function Rest(t: Tree, q: PageId, i: nat): set<PageId>
    requires Labelled(t.parent, t.tokens, t.path) && q in t.kids
  {
    set x | x in t.parent && InRest(t, q, i, x)
  }

  lemma UnderSplits(t: Tree, p: PageId, x: PageId)
    requires Wf(t) && p in t.parent && x in t.parent
    ensures Under(t, p, x) <==> x == p || InRest(t, p, 0, x)
  {
    if Under(t, p, x) && x != p {
      var c := Toward(t, p, x);
      KidsAreChildren(t.parent, t.kids, p, c);
      var j :| 0 <= j < |t.kids[p]| && t.kids[p][j] == c;
    }
    if InRest(t, p, 0, x) {
      var j :| 0 <= j < |t.kids[p]| && Under(t, t.kids[p][j], x);
      ChildUnder(t, p, j);
      UnderTransitive(t, p, t.kids[p][j], x);
    }
  }

  lemma ChildUnder(t: Tree, p: PageId, j: nat)
    requires Wf(t) && p in t.parent && j < |t.kids[p]|
    ensures t.kids[p][j] in t.parent && t.kids[p][j] != ROOT && t.parent[t.kids[p][j]] == p
    ensures Under(t, p, t.kids[p][j])
  {
    var c := t.kids[p][j];
    assert c in t.kids[p];
    KidDiffers(t.parent, t.kids, t.tokens, t.path, p, c);
  }

  /** Different children of a page have disjoint subtrees. */
  lemma SiblingsDisjoint(t: Tree, q: PageId, i: nat, j: nat, x: PageId)
    requires Wf(t) && q in t.parent && i < |t.kids[q]| && j < |t.kids[q]| && x in t.parent
    requires Under(t, t.kids[q][i], x) && Under(t, t.kids[q][j], x)
    ensures i == j
  {
    ChildUnder(t, q, i);
    ChildUnder(t, q, j);
    HeadContinues(t, t.kids[q][i], x);
    HeadContinues(t, t.kids[q][j], x);
  }

  /** The traversal from the i-th child of q covers that child, the later siblings and
      the pages below the child, and these three parts are disjoint. */
  lemma RestSplits(t: Tree, q: PageId, i: nat, x: PageId)
    requires Wf(t) && q in t.parent && i < |t.kids[q]| && x in t.parent
    ensures t.kids[q][i] in t.parent
    ensures InRest(t, q, i, x) <==> x == t.kids[q][i] || InRest(t, q, i + 1, x) || InRest(t, t.kids[q][i], 0, x)
    ensures InRest(t, q, i + 1, x) ==> x != t.kids[q][i] && !InRest(t, t.kids[q][i], 0, x)
    ensures InRest(t, t.kids[q][i], 0, x) ==> x != t.kids[q][i]
  {
    var p := t.kids[q][i];
    ChildUnder(t, q, i);
    UnderSplits(t, p, x);
    assert Under(t, p, p);
    if InRest(t, q, i + 1, x) {
      var j :| i + 1 <= j < |t.kids[q]| && Under(t, t.kids[q][j], x);
      if Under(t, p, x) { SiblingsDisjoint(t, q, i, j, x); }
    }
    if InRest(t, p, 0, x) {
      var j :| 0 <= j < |t.kids[p]| && Under(t, t.kids[p][j], x);
      ChildUnder(t, p, j);
      UnderExtends(t, t.kids[p][j], x);
      ParentDiffers(t.parent, t.tokens, t.path, t.kids[p][j]);
    }
  }

  /** Both recursive traversals cover strictly fewer pages. */
  lemma RestShrinks(t: Tree, q: PageId, i: nat)
    requires Wf(t) && q in t.parent && i < |t.kids[q]|
    ensures t.kids[q][i] in t.parent
    ensures Rest(t, q, i + 1) < Rest(t, q, i) && Rest(t, t.kids[q][i], 0) < Rest(t, q, i)
  {
    var p := t.kids[q][i];
    RestSplits(t, q, i, p);
    forall x | x in t.parent ensures x in Rest(t, q, i + 1) || x in Rest(t, p, 0) ==> x in Rest(t, q, i) {
      RestSplits(t, q, i, x);
    }
    assert p in Rest(t, q, i) && p !in Rest(t, q, i + 1) && p !in Rest(t, p, 0);
  }

  // ---------------------------------------------------------------- collecting sequences

  /** `out` lists each sequence that ends in a page of the traversal exactly once. */
  ghost predicate ListsRest(t: Tree, q: PageId, i: nat, out: seq<SeqId>)
    requires Labelled(t.parent, t.tokens, t.path) && q in t.kids
  {
    && NoRepeats(out)
    && forall id :: id in out <==> id in t.where && t.where[id] in t.parent && InRest(t, q, i, t.where[id])
  }

  /** `out` lists each sequence that ends in or below page p exactly once. */
  ghost predicate ListsUnder(t: Tree, p: PageId, out: seq<SeqId>)
    requires Labelled(t.parent, t.tokens, t.path)
  {
    && NoRepeats(out)
    && forall id :: id in out <==> id in t.where && t.where[id] in t.parent && Under(t, p, t.where[id])
  }

  lemma OwnIds(t: Tree, p: PageId)
    requires Wf(t) && p in t.parent
    ensures NoRepeats(t.ids[p])
    ensures forall id :: id in t.ids[p] <==> id in t.where && t.where[id] == p
  {
    forall id ensures id in t.ids[p] <==> id in t.where && t.where[id] == p {
      if id in t.ids[p] { var j :| 0 <= j < |t.ids[p]| && t.ids[p][j] == id; }
    }
  }

  lemma CollectRest(t: Tree, q: PageId, i: nat, later: seq<SeqId>, below: seq<SeqId>)
    requires Wf(t) && q in t.parent && i < |t.kids[q]| && t.kids[q][i] in t.parent
    requires ListsRest(t, q, i + 1, later) && ListsRest(t, t.kids[q][i], 0, below)
    ensures ListsRest(t, q, i, t.ids[t.kids[q][i]] + later + below)
  {
    var p := t.kids[q][i];
    var own := t.ids[p];
    OwnIds(t, p);
    forall id | id in t.where
      ensures t.where[id] in t.parent
      ensures InRest(t, q, i, t.where[id]) <==> id in own || id in later || id in below
      ensures id in own ==> id !in later && id !in below
      ensures id in later ==> id !in below
    {
      RestSplits(t, q, i, t.where[id]);
    }
    hide Nested, Threaded, Labelled, Indexed, InRest;
    forall x | x in own ensures x !in later {}
    forall x | x in own + later ensures x !in below {}
    NoRepeatsConcat(own, later);
    NoRepeatsConcat(own + later, below);
  }

  lemma CollectUnder(t: Tree, p: PageId, below: seq<SeqId>)
    requires Wf(t) && p in t.parent && ListsRest(t, p, 0, below)
    ensures ListsUnder(t, p, t.ids[p] + below)
  {
    OwnIds(t, p);
    forall id | id in t.where
      ensures t.where[id] in t.parent
      ensures Under(t, p, t.where[id]) <==> id in t.ids[p] || id in below
      ensures id in t.ids[p] ==> id !in below
    {
      UnderSplits(t, p, t.where[id]);
      if InRest(t, p, 0, t.where[id]) { BelowIsOther(t, p, t.where[id]); }
    }
    NoRepeatsConcat(t.ids[p], below);
  }

  lemma BelowIsOther(t: Tree, p: PageId, x: PageId)
    requires Wf(t) && p in t.parent && x in t.parent && InRest(t, p, 0, x)
    ensures x != p
  {
    var j :| 0 <= j < |t.kids[p]| && Under(t, t.kids[p][j], x);
    ChildUnder(t, p, j);
    UnderExtends(t, t.kids[p][j], x);
    ParentDiffers(t.parent, t.tokens, t.path, t.kids[p][j]);
  }

  lemma NothingInRest(t: Tree, q: PageId, i: nat)
    requires Labelled(t.parent, t.tokens, t.path) && q in t.kids && i >= |t.kids[q]|
    ensures ListsRest(t, q, i, [])
  {
  }

  // ---------------------------------------------------------------- the longest match

  /** The walk found the longest match among all stored sequences, and the sequences
      listed below its last page are exactly those that attain it. */
  lemma LongestMatch(t: Tree, text: seq<Token>, page: PageId, offset: nat, inPage: nat)
    requires Wf(t) && Leafy(t) && Stops(t, ROOT, text, page, offset, inPage)
    ensures forall id, k: nat :: id in View(t) && Share(View(t)[id], text, k) ==> k <= offset
    ensures offset > 0 ==> page != ROOT
    ensures offset > 0 ==> exists id :: id in View(t) && Share(View(t)[id], text, offset)
    ensures offset > 0 ==> forall out :: ListsUnder(t, page, out) ==>
              out != [] && forall id :: id in out <==> id in View(t) && Share(View(t)[id], text, offset)
  {
    forall id, k: nat | id in View(t) && Share(View(t)[id], text, k) ensures k <= offset {
      NothingLonger(t, text, page, offset, inPage, t.where[id], k);
    }
    if offset > 0 {
      forall id | id in t.where
        ensures t.where[id] in t.parent && id in View(t)
        ensures Share(View(t)[id], text, offset) <==> Under(t, page, t.where[id])
      {
        MatchersAreUnder(t, text, page, offset, inPage, t.where[id]);
      }
      MatchersAreUnder(t, text, page, offset, inPage, page);
      var some := SubtreeHoldsSequence(t, page);
      assert Share(View(t)[some], text, offset);
      forall out | ListsUnder(t, page, out)
        ensures out != [] && forall id :: id in out <==> id in View(t) && Share(View(t)[id], text, offset)
      {
        assert some in out;
      }
    }
  }
}
