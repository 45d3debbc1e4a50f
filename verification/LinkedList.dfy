/** The circular, intrusive, doubly linked list of include/klibc/llist.h, laid out in raw memory:
    a node at address p keeps `next` in the word at p and `prev` in the word at p + 4. */
module LinkedList {
  import opened Memory

  predicate IsNode(p: int) { 0 < p && p % 4 == 0 && p + 8 <= WORD_LIMIT }

  /** Two nodes share no word. */
  predicate Apart(p: int, q: int) { p + 8 <= q || q + 8 <= p }

  predicate ApartFrom(p: int, c: seq<Word>) { forall i :: 0 <= i < |c| ==> Apart(p, c[i]) }

  predicate Nodes(c: seq<Word>) {
    && (forall i :: 0 <= i < |c| ==> IsNode(c[i]))
    && (forall i, j {:trigger Apart(c[i], c[j])} :: 0 <= i < j < |c| ==> Apart(c[i], c[j]))
  }

  /** The node that follows position i on the cycle c. */
  function After(c: seq<Word>, i: nat): Word
    requires i < |c|
  {
    if i + 1 < |c| then c[i + 1] else c[0]
  }

  /** In memory m the nodes of c form one cycle on which next and prev are mutually inverse. */
  ghost predicate Linked(m: Ram, c: seq<Word>) {
    && |c| > 0
    && Nodes(c)
    && forall i {:trigger After(c, i)} :: 0 <= i < |c| ==> m[c[i]] == After(c, i) && m[After(c, i) + 4] == c[i]
  }

  /** The list anchored at `head` holds exactly the entries s, in order. */
  ghost predicate IsList(m: Ram, head: Word, s: seq<Word>) { Linked(m, [head] + s) }

  // ----- The pointer edits, as the header writes them -----

  function Add(m: Ram, node: Word, prev: Word, next: Word): Ram
    requires IsNode(node) && IsNode(prev) && IsNode(next)
  {
    m[next + 4 := node][node := next][node + 4 := prev][prev := node]
  }

  function Unlink(m: Ram, prev: Word, next: Word): Ram
    requires IsNode(prev) && IsNode(next)
  {
    m[next + 4 := prev][prev := next]
  }

  function Inserted(s: seq<Word>, k: nat, node: Word): seq<Word>
    requires k <= |s|
  {
    s[..k] + [node] + s[k..]
  }

  function Removed(s: seq<Word>, k: nat): seq<Word>
    requires k < |s|
  {
    s[..k] + s[k + 1..]
  }

  lemma InsertedNodes(c: seq<Word>, k: nat, node: Word)
    requires Nodes(c) && k <= |c| && IsNode(node) && ApartFrom(node, c)
    ensures Nodes(Inserted(c, k, node))
  {
    var c' := Inserted(c, k, node);
    forall i, j | 0 <= i < j < |c'|
      ensures Apart(c'[i], c'[j])
    {
      if i == k {
        assert c'[j] == c[j - 1];
      } else if j == k {
        assert c'[i] == c[i];
      }
    }
  }

  lemma RemovedNodes(c: seq<Word>, k: nat)
    requires Nodes(c) && k < |c|
    ensures Nodes(Removed(c, k))
  {
  }

  lemma PairApart(c: seq<Word>, i: nat, j: nat)
    requires Nodes(c) && i < |c| && j < |c|
    ensures IsNode(c[i]) && IsNode(c[j]) && (i == j || Apart(c[i], c[j]))
  {
    if i < j { assert Apart(c[i], c[j]); } else if j < i { assert Apart(c[j], c[i]); }
  }

  /** Different positions of a cycle have different successors. */
  lemma AfterInjective(c: seq<Word>, i: nat, j: nat)
    requires Nodes(c) && i < |c| && j < |c| && i != j
    ensures Apart(After(c, i), After(c, j)) && Apart(c[i], c[j])
    ensures After(c, i) == c[j] || Apart(After(c, i), c[j])
    ensures After(c, j) == c[i] || Apart(c[i], After(c, j))
    ensures IsNode(After(c, i)) && IsNode(c[i]) && IsNode(After(c, j)) && IsNode(c[j])
  {
    var p, q := if i + 1 < |c| then i + 1 else 0, if j + 1 < |c| then j + 1 else 0;
    PairApart(c, i, j);
    PairApart(c, p, q);
    PairApart(c, p, j);
    PairApart(c, i, q);
  }

  /** What reading any node finds after a node is linked in between two neighbours. */
  lemma AddReads(m: Ram, node: Word, prev: Word, next: Word, p: Word)
    requires IsNode(node) && IsNode(prev) && IsNode(next) && IsNode(p)
    requires Apart(node, prev) && Apart(node, next) && Apart(p, node)
    requires p == next || Apart(p, next)
    requires p == prev || Apart(p, prev)
    ensures var m' := Add(m, node, prev, next);
            && (p != prev ==> m'[p] == m[p])
            && (p != next ==> m'[p + 4] == m[p + 4])
  {
  }

  lemma AddWrites(m: Ram, node: Word, prev: Word, next: Word)
    requires IsNode(node) && IsNode(prev) && IsNode(next)
    requires Apart(node, prev) && Apart(node, next)
    requires prev == next || Apart(prev, next)
    ensures var m' := Add(m, node, prev, next);
            m'[prev] == node && m'[node] == next && m'[node + 4] == prev && m'[next + 4] == node
  {
  }

  lemma InsertedAt(c: seq<Word>, k: nat, node: Word, i: nat)
    requires k < |c| && i <= |c|
    ensures var c' := Inserted(c, k + 1, node);
            && (i < k ==> c'[i] == c[i] && After(c', i) == After(c, i))
            && (i == k ==> c'[i] == c[k] && After(c', i) == node)
            && (i == k + 1 ==> c'[i] == node && After(c', i) == After(c, k))
            && (i > k + 1 ==> c'[i] == c[i - 1] && After(c', i) == After(c, i - 1))
  {
  }

  /** Both links at position j of a cycle are as they were. */
  ghost predicate KeptAt(m: Ram, m': Ram, c: seq<Word>, j: nat) {
    j < |c| && IsNode(c[j]) && IsNode(After(c, j)) && m'[c[j]] == m[c[j]] && m'[After(c, j) + 4] == m[After(c, j) + 4]
  }

  lemma AddKeepsAt(m: Ram, c: seq<Word>, k: nat, node: Word, j: nat)
    requires Nodes(c) && k < |c| && IsNode(node) && ApartFrom(node, c) && j < |c| && j != k
    ensures IsNode(c[k]) && IsNode(After(c, k)) && KeptAt(m, Add(m, node, c[k], After(c, k)), c, j)
  {
    AfterInjective(c, j, k);
    assert Apart(node, c[k]) && Apart(node, After(c, k)) && Apart(node, c[j]) && Apart(node, After(c, j));
    AddReads(m, node, c[k], After(c, k), c[j]);
    AddReads(m, node, c[k], After(c, k), After(c, j));
  }

  /** Linking a node in after position k of a cycle splices it in there. */
  lemma AddLinks(m: Ram, c: seq<Word>, k: nat, node: Word)
    requires Linked(m, c) && k < |c| && IsNode(node) && ApartFrom(node, c)
    ensures Linked(Add(m, node, c[k], After(c, k)), Inserted(c, k + 1, node))
  {
    InsertedNodes(c, k + 1, node);
    PairApart(c, k, if k + 1 < |c| then k + 1 else 0);
    assert Apart(node, c[k]) && Apart(node, After(c, k));
    var m' := Add(m, node, c[k], After(c, k));
    AddWrites(m, node, c[k], After(c, k));
    forall j | 0 <= j < |c| && j != k
      ensures KeptAt(m, m', c, j)
    {
      AddKeepsAt(m, c, k, node, j);
    }
    SplicedLinks(m, m', c, k, node);
  }

  lemma SplicedLinks(m: Ram, m': Ram, c: seq<Word>, k: nat, node: Word)
    requires Linked(m, c) && k < |c| && IsNode(node) && Nodes(Inserted(c, k + 1, node))
    requires forall j :: 0 <= j < |c| && j != k ==> KeptAt(m, m', c, j)
    requires m'[c[k]] == node && m'[node] == After(c, k) && m'[node + 4] == c[k] && m'[After(c, k) + 4] == node
    ensures Linked(m', Inserted(c, k + 1, node))
  {
    var c' := Inserted(c, k + 1, node);
    forall i | 0 <= i < |c'|
      ensures m'[c'[i]] == After(c', i) && m'[After(c', i) + 4] == c'[i]
    {
      InsertedAt(c, k, node, i);
      if i != k && i != k + 1 {
        var j := if i < k then i else i - 1;
        assert KeptAt(m, m', c, j);
        assert m[c[j]] == After(c, j) && m[After(c, j) + 4] == c[j];
      }
    }
  }

  /** Unlinking leaves a next word other than prev's, and a prev word other than next's, alone. */
  lemma UnlinkReads(m: Ram, prev: Word, next: Word, p: Word, q: Word)
    requires IsNode(prev) && IsNode(next) && IsNode(p) && IsNode(q)
    requires Apart(p, prev) && Apart(q, next)
    requires p == next || Apart(p, next)
    requires q == prev || Apart(q, prev)
    ensures Unlink(m, prev, next)[p] == m[p] && Unlink(m, prev, next)[q + 4] == m[q + 4]
  {
  }

  lemma RemovedAt(c: seq<Word>, k: nat, i: nat)
    requires k + 1 < |c| && i < |c| - 1
    ensures var c' := Removed(c, k + 1);
            && (i < k ==> c'[i] == c[i] && After(c', i) == After(c, i))
            && (i == k ==> c'[i] == c[k] && After(c', i) == After(c, k + 1))
            && (i > k ==> c'[i] == c[i + 1] && After(c', i) == After(c, i + 1))
  {
  }

  lemma UnlinkKeepsAt(m: Ram, c: seq<Word>, k: nat, j: nat)
    requires Nodes(c) && k + 1 < |c| && j < |c| && j != k && j != k + 1
    ensures IsNode(c[k]) && IsNode(After(c, k + 1)) && KeptAt(m, Unlink(m, c[k], After(c, k + 1)), c, j)
  {
    AfterInjective(c, j, k);
    AfterInjective(c, j, k + 1);
    UnlinkReads(m, c[k], After(c, k + 1), c[j], After(c, j));
  }

  /** Unlinking the node after position k of a cycle takes exactly that node out. */
  lemma UnlinkLinks(m: Ram, c: seq<Word>, k: nat)
    requires Linked(m, c) && k + 1 < |c|
    ensures Linked(Unlink(m, c[k], After(c, k + 1)), Removed(c, k + 1))
  {
    RemovedNodes(c, k + 1);
    AfterInjective(c, k, k + 1);
    var m' := Unlink(m, c[k], After(c, k + 1));
    forall j | 0 <= j < |c| && j != k && j != k + 1
      ensures KeptAt(m, m', c, j)
    {
      UnlinkKeepsAt(m, c, k, j);
    }
    CutOutLinks(m, m', c, k);
  }

  lemma CutOutLinks(m: Ram, m': Ram, c: seq<Word>, k: nat)
    requires Linked(m, c) && k + 1 < |c| && Nodes(Removed(c, k + 1)) && IsNode(After(c, k + 1))
    requires forall j :: 0 <= j < |c| && j != k && j != k + 1 ==> KeptAt(m, m', c, j)
    requires m'[c[k]] == After(c, k + 1) && m'[After(c, k + 1) + 4] == c[k]
    ensures Linked(m', Removed(c, k + 1))
  {
    var c' := Removed(c, k + 1);
    forall i | 0 <= i < |c'|
      ensures m'[c'[i]] == After(c', i) && m'[After(c', i) + 4] == c'[i]
    {
      RemovedAt(c, k, i);
      if i != k {
        var j := if i < k then i else i + 1;
        assert KeptAt(m, m', c, j);
        assert m[c[j]] == After(c, j) && m[After(c, j) + 4] == c[j];
      }
    }
  }

  // ----- Sequence refinement -----

  /** Linking in front of position k of a list realises the sequence insertion. */
  lemma InsertRefines(m: Ram, head: Word, s: seq<Word>, k: nat, node: Word)
    requires IsList(m, head, s) && k <= |s| && IsNode(node) && ApartFrom(node, [head] + s)
    ensures IsList(Add(m, node, ([head] + s)[k], After([head] + s, k)), head, Inserted(s, k, node))
  {
    AddLinks(m, [head] + s, k, node);
    assert Inserted([head] + s, k + 1, node) == [head] + Inserted(s, k, node);
  }

  /** Unlinking the entry at position k realises the sequence deletion. */
  lemma RemoveRefines(m: Ram, head: Word, s: seq<Word>, k: nat)
    requires IsList(m, head, s) && k < |s|
    ensures var c := [head] + s;
            && IsNode(s[k]) && m[s[k] + 4] == c[k] && m[s[k]] == After(c, k + 1)
            && IsList(Unlink(m, c[k], After(c, k + 1)), head, Removed(s, k))
  {
    var c := [head] + s;
    assert c[k + 1] == s[k];
    assert After(c, k) == s[k] && After(c, k + 1) == m[c[k + 1]];
    UnlinkLinks(m, c, k);
    assert Removed(c, k + 1) == [head] + Removed(s, k);
  }

  /** An edit that touches no word of a cycle's nodes leaves that cycle linked. */
  lemma OtherCycleKept(m: Ram, m': Ram, c: seq<Word>)
    requires Linked(m, c)
    requires forall i :: 0 <= i < |c| ==> m'[c[i]] == m[c[i]] && m'[c[i] + 4] == m[c[i] + 4]
    ensures Linked(m', c)
  {
    forall i | 0 <= i < |c|
      ensures m'[c[i]] == After(c, i) && m'[After(c, i) + 4] == c[i]
    {
      var j := if i + 1 < |c| then i + 1 else 0;
      assert m'[c[j] + 4] == m[c[j] + 4];
    }
  }

  /** Every entry of c is apart from every entry of d. */
  predicate CyclesApart(c: seq<Word>, d: seq<Word>) { forall i :: 0 <= i < |c| ==> ApartFrom(c[i], d) }

  lemma AddKeepsOther(m: Ram, c: seq<Word>, node: Word, prev: Word, next: Word)
    requires Linked(m, c) && IsNode(node) && IsNode(prev) && IsNode(next)
    requires ApartFrom(node, c) && ApartFrom(prev, c) && ApartFrom(next, c)
    ensures Linked(Add(m, node, prev, next), c)
  {
    OtherCycleKept(m, Add(m, node, prev, next), c);
  }

  lemma UnlinkKeepsOther(m: Ram, c: seq<Word>, prev: Word, next: Word)
    requires Linked(m, c) && IsNode(prev) && IsNode(next)
    requires ApartFrom(prev, c) && ApartFrom(next, c)
    ensures Linked(Unlink(m, prev, next), c)
  {
    OtherCycleKept(m, Unlink(m, prev, next), c);
  }

  lemma RemovedApart(c: seq<Word>, k: nat)
    requires Nodes(c) && k < |c|
    ensures ApartFrom(c[k], Removed(c, k))
  {
    forall i | 0 <= i < |c| - 1
      ensures Apart(c[k], Removed(c, k)[i])
    {
      var j := if i < k then i else i + 1;
      assert Removed(c, k)[i] == c[j];
      PairApart(c, k, j);
    }
  }

  lemma RemovedStaysApart(c: seq<Word>, k: nat, d: seq<Word>, j: nat)
    requires CyclesApart(c, d) && k < |c| && j < |d|
    ensures ApartFrom(d[j], Removed(c, k))
  {
    forall i | 0 <= i < |c| - 1
      ensures Apart(d[j], Removed(c, k)[i])
    {
      var i' := if i < k then i else i + 1;
      assert Removed(c, k)[i] == c[i'] && ApartFrom(c[i'], d);
    }
  }

  lemma MoveConserves(s: seq<Word>, k: nat, t: seq<Word>, j: nat)
    requires k < |s| && j <= |t|
    ensures multiset(Removed(s, k)) + multiset(Inserted(t, j, s[k])) == multiset(s) + multiset(t)
  {
    assert s == s[..k] + [s[k]] + s[k + 1..];
    assert t == t[..j] + t[j..];
  }

  /** The two cycles after a move, in terms of cycles. */
  lemma MoveLinks(m: Ram, c: seq<Word>, k: nat, d: seq<Word>, j: nat)
    requires Linked(m, c) && Linked(m, d) && CyclesApart(c, d)
    requires k + 1 < |c| && j < |d|
    ensures var m1 := Unlink(m, c[k], After(c, k + 1));
            && Linked(m1, d)
            && Linked(Add(m1, c[k + 1], d[j], After(d, j)), Removed(c, k + 1))
            && Linked(Add(m1, c[k + 1], d[j], After(d, j)), Inserted(d, j + 1, c[k + 1]))
  {
    var p := if k + 2 < |c| then k + 2 else 0;
    var q := if j + 1 < |d| then j + 1 else 0;
    assert After(c, k + 1) == c[p] && After(d, j) == d[q];
    assert ApartFrom(c[k], d) && ApartFrom(c[p], d) && ApartFrom(c[k + 1], d);
    var m1 := Unlink(m, c[k], c[p]);
    UnlinkLinks(m, c, k);
    UnlinkKeepsOther(m, d, c[k], c[p]);
    AddLinks(m1, d, j, c[k + 1]);
    RemovedApart(c, k + 1);
    RemovedStaysApart(c, k + 1, d, j);
    RemovedStaysApart(c, k + 1, d, q);
    AddKeepsOther(m1, Removed(c, k + 1), c[k + 1], d[j], d[q]);
  }

  /** Moving entry k of one list to position j of another edits both sequences and loses nothing. */
  lemma MoveRefines(m: Ram, head: Word, s: seq<Word>, k: nat, head': Word, t: seq<Word>, j: nat)
    requires IsList(m, head, s) && IsList(m, head', t) && CyclesApart([head] + s, [head'] + t)
    requires k < |s| && j <= |t|
    ensures var c, d := [head] + s, [head'] + t;
            var m1 := Unlink(m, c[k], After(c, k + 1));
            && IsNode(s[k]) && IsList(m1, head', t)
            && IsList(Add(m1, s[k], d[j], After(d, j)), head, Removed(s, k))
            && IsList(Add(m1, s[k], d[j], After(d, j)), head', Inserted(t, j, s[k]))
    ensures multiset(Removed(s, k)) + multiset(Inserted(t, j, s[k])) == multiset(s) + multiset(t)
  {
    var c, d := [head] + s, [head'] + t;
    assert s[k] == c[k + 1];
    assert Removed(c, k + 1) == [head] + Removed(s, k);
    assert Inserted(d, j + 1, s[k]) == [head'] + Inserted(t, j, s[k]);
    MoveConserves(s, k, t, j);
    MoveLinks(m, c, k, d, j);
  }

  /** Moving within one list: out, and back in at any place of what is left. */
  lemma MoveWithinRefines(m: Ram, head: Word, s: seq<Word>, k: nat, j: nat)
    requires IsList(m, head, s) && k < |s| && j < |s|
    ensures var c, d := [head] + s, [head] + Removed(s, k);
            var m1 := Unlink(m, c[k], After(c, k + 1));
            && IsNode(s[k]) && IsList(m1, head, Removed(s, k))
            && IsList(Add(m1, s[k], d[j], After(d, j)), head, Inserted(Removed(s, k), j, s[k]))
    ensures multiset(Inserted(Removed(s, k), j, s[k])) == multiset(s)
  {
    var c := [head] + s;
    assert s[k] == c[k + 1] && Removed(c, k + 1) == [head] + Removed(s, k);
    RemoveRefines(m, head, s, k);
    RemovedApart(c, k + 1);
    InsertRefines(Unlink(m, c[k], After(c, k + 1)), head, Removed(s, k), j, s[k]);
    ReinsertConserves(s, k, j);
  }

  lemma ReinsertConserves(s: seq<Word>, k: nat, j: nat)
    requires k < |s| && j < |s|
    ensures multiset(Inserted(Removed(s, k), j, s[k])) == multiset(s)
  {
    var r := Removed(s, k);
    assert r == r[..j] + r[j..];
    assert s == s[..k] + [s[k]] + s[k + 1..];
    assert multiset(r) == multiset(r[..j] + r[j..]) == multiset(r[..j]) + multiset(r[j..]);
    assert multiset(s) == multiset(s[..k] + [s[k]] + s[k + 1..]) == multiset(r) + multiset{s[k]};
  }

  /** The lists after an entry moved to position j of its own list or of a disjoint one. */
  ghost predicate Moved(m: Ram, head: Word, s: seq<Word>, k: nat, to: Word, t: seq<Word>, j: nat)
    requires k < |s|
  {
    if to == head then
      j < |s| && IsList(m, head, Inserted(Removed(s, k), j, s[k]))
      && multiset(Inserted(Removed(s, k), j, s[k])) == multiset(s)
    else
      && j <= |t| && IsList(m, head, Removed(s, k)) && IsList(m, to, Inserted(t, j, s[k]))
      && multiset(Removed(s, k)) + multiset(Inserted(t, j, s[k])) == multiset(s) + multiset(t)
  }

  /** The cycle an entry moves into, once it is out of its own. */
  function Target(head: Word, s: seq<Word>, k: nat, to: Word, t: seq<Word>): seq<Word>
    requires k < |s|
  {
    [to] + if to == head then Removed(s, k) else t
  }

  lemma MoveReady(m: Ram, head: Word, s: seq<Word>, k: nat, to: Word, t: seq<Word>, j: nat)
    requires IsList(m, head, s) && k < |s| && j < |Target(head, s, k, to, t)|
    requires to == head || (IsList(m, to, t) && CyclesApart([head] + s, [to] + t))
    ensures var c, d := [head] + s, Target(head, s, k, to, t);
            && IsNode(c[k]) && IsNode(After(c, k + 1)) && IsNode(s[k]) && IsNode(d[j]) && IsNode(After(d, j))
            && var m1 := Unlink(m, c[k], After(c, k + 1));
               && m1[d[j]] == After(d, j) && m1[After(d, j) + 4] == d[j]
               && Moved(Add(m1, s[k], d[j], After(d, j)), head, s, k, to, t, j)
               && ChangedOnly(m, Add(m1, s[k], d[j], After(d, j)), c + d)
  {
    var d := Target(head, s, k, to, t);
    if to == head {
      MoveWithinRefines(m, head, s, k, j);
    } else {
      MoveRefines(m, head, s, k, to, t, j);
    }
    MoveChanges(m, head, s, k, d, j);
  }

  // ----- What an edit leaves alone -----

  /** Only link words of the nodes of c differ. */
  ghost predicate ChangedOnly(m: Ram, m': Ram, c: seq<Word>) {
    forall x {:trigger m'[x]} :: 0 <= x < WORD_LIMIT && NoLink(c, x) ==> m'[x] == m[x]
  }

  predicate NoLink(c: seq<Word>, x: int) { forall i :: 0 <= i < |c| ==> x != c[i] && x - 4 != c[i] }

  /** So every list disjoint from c stays as it was. */
  lemma ChangedOnlyKeepsOthers(m: Ram, m': Ram, c: seq<Word>, d: seq<Word>)
    requires ChangedOnly(m, m', c) && Linked(m, d) && CyclesApart(c, d)
    ensures Linked(m', d)
  {
    forall i | 0 <= i < |d|
      ensures m'[d[i]] == m[d[i]] && m'[d[i] + 4] == m[d[i] + 4]
    {
      assert ApartFrom(d[i], c);
      assert NoLink(c, d[i]) && NoLink(c, d[i] + 4);
    }
    OtherCycleKept(m, m', d);
  }

  lemma UnlinkChanges(m: Ram, head: Word, s: seq<Word>, k: nat, next: Word, prev: Word)
    requires IsList(m, head, s) && k < |s|
    ensures var c := [head] + s;
            && IsNode(c[k]) && IsNode(After(c, k + 1)) && IsNode(s[k])
            && ChangedOnly(m, Unlink(m, c[k], After(c, k + 1))[s[k] := next][s[k] + 4 := prev], c)
  {
    var c := [head] + s;
    assert s[k] == c[k + 1];
    forall x | 0 <= x < WORD_LIMIT && NoLink(c, x)
      ensures Unlink(m, c[k], After(c, k + 1))[s[k] := next][s[k] + 4 := prev][x] == m[x]
    {
      if k + 2 < |c| { assert After(c, k + 1) == c[k + 2]; }
    }
  }

  lemma MoveChanges(m: Ram, head: Word, s: seq<Word>, k: nat, d: seq<Word>, j: nat)
    requires IsList(m, head, s) && k < |s| && j < |d| && Nodes(d)
    ensures var c := [head] + s;
            && IsNode(c[k]) && IsNode(After(c, k + 1)) && IsNode(s[k]) && IsNode(d[j]) && IsNode(After(d, j))
            && ChangedOnly(m, Add(Unlink(m, c[k], After(c, k + 1)), s[k], d[j], After(d, j)), c + d)
  {
    var c := [head] + s;
    assert s[k] == c[k + 1];
    var e := c + d;
    forall x | 0 <= x < WORD_LIMIT && NoLink(e, x)
      ensures Add(Unlink(m, c[k], After(c, k + 1)), s[k], d[j], After(d, j))[x] == m[x]
    {
      assert e[k] == c[k] && e[k + 1] == c[k + 1] && e[0] == c[0] && e[|c| + j] == d[j] && e[|c|] == d[0];
      if k + 2 < |c| { assert e[k + 2] == c[k + 2]; }
      if j + 1 < |d| { assert e[|c| + j + 1] == d[j + 1]; }
    }
  }

  /** Memory that holds intrusive lists.  The ghost arguments name the list being edited. */
  class ListMemory {
    var ram: Ram

    constructor (initial: Ram)
      ensures ram == initial
    {
      ram := initial;
    }

    /** INIT_LIST_HEAD */
    method InitListHead(head: Word)
      requires IsNode(head)
      modifies this
      ensures IsList(ram, head, []) && ram == old(ram)[head := head][head + 4 := head]
    {
      ram := ram[head := head];
      ram := ram[head + 4 := head];
    }

    method ListAdd(node: Word, at: Word, ghost head: Word, ghost s: seq<Word>, ghost k: nat)
      requires IsList(ram, head, s) && k <= |s| && at == ([head] + s)[k]
      requires IsNode(node) && ApartFrom(node, [head] + s)
      modifies this
      ensures IsList(ram, head, Inserted(s, k, node))
      ensures ram == Add(old(ram), node, at, After([head] + s, k))
    {
      assert After([head] + s, k) == ram[at];
      InsertRefines(ram, head, s, k, node);
      InsertBetween(node, at, ram[at]);
    }

    method ListAddTail(node: Word, at: Word, ghost head: Word, ghost s: seq<Word>, ghost k: nat)
      requires IsList(ram, head, s) && k <= |s| && at == After([head] + s, k)
      requires IsNode(node) && ApartFrom(node, [head] + s)
      modifies this
      ensures IsList(ram, head, Inserted(s, k, node))
      ensures ram == Add(old(ram), node, ([head] + s)[k], at)
    {
      InsertRefines(ram, head, s, k, node);
      InsertBetween(node, ram[at + 4], at);
    }

    /** __list_add */
    method InsertBetween(node: Word, prev: Word, next: Word)
      requires IsNode(node) && IsNode(prev) && IsNode(next)
      modifies this
      ensures ram == Add(old(ram), node, prev, next)
    {
      ram := ram[next + 4 := node];
      ram := ram[node := next];
      ram := ram[node + 4 := prev];
      ram := ram[prev := node];
    }

    /** __list_del_entry */
    method ListDelEntry(entry: Word, ghost head: Word, ghost s: seq<Word>, ghost k: nat)
      requires IsList(ram, head, s) && k < |s| && entry == s[k]
      modifies this
      ensures IsList(ram, head, Removed(s, k))
      ensures ram == Unlink(old(ram), ([head] + s)[k], After([head] + s, k + 1))
    {
      RemoveRefines(ram, head, s, k);
      var prev, next := ram[entry + 4], ram[entry];
      ram := ram[next + 4 := prev];
      ram := ram[prev := next];
    }

    /** list_del: the entry's own links are cleared; the list no longer reaches it. */
    method ListDel(entry: Word, ghost head: Word, ghost s: seq<Word>, ghost k: nat)
      requires IsList(ram, head, s) && k < |s| && entry == s[k]
      modifies this
      ensures IsNode(entry) && ChangedOnly(old(ram), ram, [head] + s)
      ensures IsList(ram, head, Removed(s, k)) && ram[entry] == 0 && ram[entry + 4] == 0
    {
      assert entry == ([head] + s)[k + 1];
      UnlinkChanges(ram, head, s, k, 0, 0);
      ListDelEntry(entry, head, s, k);
      SetEntry(entry, 0, 0, head, s, k);
    }

    /** list_del_init: the entry becomes an empty list of its own. */
    method ListDelInit(entry: Word, ghost head: Word, ghost s: seq<Word>, ghost k: nat)
      requires IsList(ram, head, s) && k < |s| && entry == s[k]
      modifies this
      ensures IsList(ram, head, Removed(s, k)) && IsList(ram, entry, []) && ChangedOnly(old(ram), ram, [head] + s)
    {
      assert entry == ([head] + s)[k + 1];
      UnlinkChanges(ram, head, s, k, entry, entry);
      ListDelEntry(entry, head, s, k);
      SetEntry(entry, entry, entry, head, s, k);
    }

    method SetEntry(entry: Word, next: Word, prev: Word, ghost head: Word, ghost s: seq<Word>, ghost k: nat)
      requires Nodes([head] + s) && k < |s| && entry == s[k] && IsList(ram, head, Removed(s, k))
      modifies this
      ensures IsNode(entry)
      ensures IsList(ram, head, Removed(s, k)) && ram == old(ram)[entry := next][entry + 4 := prev]
    {
      ghost var c := [head] + s;
      assert entry == c[k + 1] && [head] + Removed(s, k) == Removed(c, k + 1);
      RemovedApart(c, k + 1);
      OtherCycleKept(ram, ram[entry := next][entry + 4 := prev], Removed(c, k + 1));
      ram := ram[entry := next];
      ram := ram[entry + 4 := prev];
    }

    /** list_move: out of one list, to the front of another or of the same one. */
    method ListMove(entry: Word, to: Word, ghost head: Word, ghost s: seq<Word>, ghost k: nat, ghost t: seq<Word>)
      requires IsList(ram, head, s) && k < |s| && entry == s[k]
      requires to == head || (IsList(ram, to, t) && CyclesApart([head] + s, [to] + t))
      modifies this
      ensures Moved(ram, head, s, k, to, t, 0)
      ensures ChangedOnly(old(ram), ram, [head] + s + Target(head, s, k, to, t))
    {
      hide IsList, Moved, ChangedOnly;
      MoveReady(ram, head, s, k, to, t, 0);
      ListDelEntry(entry, head, s, k);
      InsertBetween(entry, to, ram[to]);
    }

    /** list_move_tail: out of one list, to the end of another or of the same one. */
    method ListMoveTail(entry: Word, to: Word, ghost head: Word, ghost s: seq<Word>, ghost k: nat, ghost t: seq<Word>)
      requires IsList(ram, head, s) && k < |s| && entry == s[k]
      requires to == head || (IsList(ram, to, t) && CyclesApart([head] + s, [to] + t))
      modifies this
      ensures Moved(ram, head, s, k, to, t, |Target(head, s, k, to, t)| - 1)
      ensures ChangedOnly(old(ram), ram, [head] + s + Target(head, s, k, to, t))
    {
      hide IsList, Moved, ChangedOnly;
      MoveReady(ram, head, s, k, to, t, |Target(head, s, k, to, t)| - 1);
      ListDelEntry(entry, head, s, k);
      InsertBetween(entry, ram[to + 4], to);
    }

    method ListEmpty(head: Word, ghost s: seq<Word>) returns (empty: bool)
      requires IsList(ram, head, s)
      ensures empty <==> s == []
    {
      assert After([head] + s, 0) == ram[head];
      assert s != [] ==> Apart(([head] + s)[0], ([head] + s)[1]);
      empty := ram[head] == head || ram[head] == 0;
    }

    method ListSize(head: Word, ghost s: seq<Word>) returns (size: nat)
      requires IsList(ram, head, s)
      ensures size == |s|
    {
      ghost var c := [head] + s;
      assert After(c, 0) == ram[head] && c[0] == head;
      size := 0;
      var p := ram[head];
      while p != head
        invariant size <= |s| && p == After(c, size)
        decreases |s| - size
      {
        assert size < |s|;
        assert p == c[size + 1];
        size := size + 1;
        assert After(c, size) == ram[p];
        p := ram[p];
      }
      assert size + 1 < |c| ==> Apart(c[0], c[size + 1]);
    }
  }
}
