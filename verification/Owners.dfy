/** Sharing of the gain starts by grouping the nodes of a cycle by owner. The
    kernel's loop looks the owner of a node up in the nodes numbered below the
    number of classes found so far, whatever class those nodes are in. */
module Owners {

  datatype Grouping = Grouping(nbOwn: nat, index: seq<nat>)

  /** The first m in [from, nb) whose node has the owner of node n, else nb. */
  function FindClass(own: seq<int>, n: nat, from: nat, nb: nat): (m: nat)
    requires n < |own| && from <= nb <= |own|
    ensures from <= m <= nb
    ensures m < nb ==> own[m] == own[n]
    ensures forall k :: from <= k < m ==> own[k] != own[n]
    decreases nb - from
  {
    if from == nb then nb
    else if own[n] == own[from] then from
    else FindClass(own, n, from + 1, nb)
  }

  /** The classes given to the first n nodes. */
  function Group(own: seq<int>, n: nat): (g: Grouping)
    requires n <= |own|
    ensures |g.index| == n && g.nbOwn <= n
    ensures forall i :: 0 <= i < n ==> g.index[i] < g.nbOwn
    ensures n > 0 ==> g.nbOwn > 0
  {
    if n == 0 then Grouping(0, [])
    else
      var g := Group(own, n - 1);
      var c := FindClass(own, n - 1, 0, g.nbOwn);
      Grouping(if c == g.nbOwn then g.nbOwn + 1 else g.nbOwn, g.index + [c])
  }

  function CalOwns(own: seq<int>): (g: Grouping) {
    Group(own, |own|)
  }

  /** How many nodes are in class c. */
  function Count(index: seq<nat>, c: nat): nat {
    if |index| == 0 then 0
    else Count(index[..|index| - 1], c) + if index[|index| - 1] == c then 1 else 0
  }

  function Occurrences(g: Grouping): (occ: seq<nat>)
    ensures |occ| == g.nbOwn
    ensures forall c :: 0 <= c < g.nbOwn ==> occ[c] == Count(g.index, c)
  {
    seq(g.nbOwn, c requires 0 <= c => Count(g.index, c))
  }

  function Sum(s: seq<nat>): nat {
    if |s| == 0 then 0 else Sum(s[..|s| - 1]) + s[|s| - 1]
  }

  lemma CountSnoc(index: seq<nat>, a: nat, c: nat)
    ensures Count(index + [a], c) == Count(index, c) + if a == c then 1 else 0
  {
    assert (index + [a])[..|index|] == index;
  }

  lemma SumSnoc(s: seq<nat>, a: nat)
    ensures Sum(s + [a]) == Sum(s) + a
  {
    assert (s + [a])[..|s|] == s;
  }

  lemma {:induction false} SumBumped(s: seq<nat>, c: nat)
    requires c < |s|
    ensures Sum(s[c := s[c] + 1]) == Sum(s) + 1
  {
    var t := s[c := s[c] + 1];
    var n := |s| - 1;
    if c == n {
      assert t[..n] == s[..n];
    } else {
      assert t[..n] == s[..n][c := s[..n][c] + 1];
      SumBumped(s[..n], c);
    }
  }

  /** The occurrences after one more node. */
  lemma OccurrencesStep(own: seq<int>, n: nat)
    requires n < |own|
    ensures var g := Group(own, n);
            var c := FindClass(own, n, 0, g.nbOwn);
            Occurrences(Group(own, n + 1)) ==
              if c == g.nbOwn then Occurrences(g) + [1]
              else Occurrences(g)[c := Occurrences(g)[c] + 1]
  {
    var g, h := Group(own, n), Group(own, n + 1);
    var c := FindClass(own, n, 0, g.nbOwn);
    assert h.index == g.index + [c];
    assert h.nbOwn == if c == g.nbOwn then c + 1 else g.nbOwn;
    if c == g.nbOwn { CountAbsent(g.index, c); }
    hide FindClass, Group, Count;
    forall d | 0 <= d < h.nbOwn
      ensures Occurrences(h)[d] == Count(g.index, d) + if d == c then 1 else 0
    {
      CountSnoc(g.index, c, d);
    }
  }

  lemma {:induction false} CountAbsent(index: seq<nat>, c: nat)
    requires forall i :: 0 <= i < |index| ==> index[i] != c
    ensures Count(index, c) == 0
  {
    if |index| > 0 { CountAbsent(index[..|index| - 1], c); }
  }

  lemma SizesStep(own: seq<int>, n: nat)
    requires n < |own|
    ensures Sum(Occurrences(Group(own, n + 1))) == Sum(Occurrences(Group(own, n))) + 1
  {
    var g := Group(own, n);
    var occ := Occurrences(g);
    var c := FindClass(own, n, 0, g.nbOwn);
    OccurrencesStep(own, n);
    hide *;
    if c == g.nbOwn { SumSnoc(occ, 1); } else { SumBumped(occ, c); }
  }

  /** The class sizes add up to the number of nodes. */
  lemma {:induction false} SizesAddUp(own: seq<int>, n: nat)
    requires n <= |own|
    ensures Sum(Occurrences(Group(own, n))) == n
  {
    if n > 0 {
      SizesAddUp(own, n - 1);
      SizesStep(own, n - 1);
    }
  }

  /** No class is empty. */
  lemma {:induction false} ClassesInhabited(own: seq<int>, n: nat, c: nat)
    requires n <= |own| && c < Group(own, n).nbOwn
    ensures Count(Group(own, n).index, c) >= 1
  {
    var g := Group(own, n - 1);
    CountSnoc(g.index, FindClass(own, n - 1, 0, g.nbOwn), c);
    if c < g.nbOwn { ClassesInhabited(own, n - 1, c); }
  }

  /** The classes partition the nodes: every node is in one class, no class is
      empty, and the sizes add up to the number of nodes. */
  lemma ClassesPartition(own: seq<int>)
    ensures var g := CalOwns(own);
            && |g.index| == |own|
            && (forall i :: 0 <= i < |own| ==> g.index[i] < g.nbOwn)
            && (forall c :: 0 <= c < g.nbOwn ==> Occurrences(g)[c] >= 1)
            && Sum(Occurrences(g)) == |own|
  {
    var g := CalOwns(own);
    SizesAddUp(own, |own|);
    forall c | 0 <= c < g.nbOwn
      ensures Occurrences(g)[c] >= 1
    {
      ClassesInhabited(own, |own|, c);
    }
  }

  lemma {:induction false} GroupPrefix(own: seq<int>, m: nat, n: nat)
    requires m <= n <= |own|
    ensures Group(own, m).index == Group(own, n).index[..m]
    ensures Group(own, m).nbOwn <= Group(own, n).nbOwn
    decreases n
  {
    if m < n { GroupPrefix(own, m, n - 1); }
  }

  // ---------------------------------------------------------------------------
  // When is a class exactly an owner?

  ghost predicate OneClassPerOwner(own: seq<int>) {
    var g := CalOwns(own);
    ExactPrefix(own, g.index, |own|)
  }

  ghost predicate Distinct(own: seq<int>, n: nat)
    requires n <= |own|
  {
    forall i, j :: 0 <= i < j < n ==> own[i] != own[j]
  }

  ghost predicate FirstAt(own: seq<int>, f: nat)
    requires f < |own|
  {
    forall i :: 0 <= i < f ==> own[i] != own[f]
  }

  /** An owner that comes back made its first appearance before any other owner
      came back. */
  ghost predicate RepeatersComeFirst(own: seq<int>) {
    forall f, p :: 0 <= f < p < |own| && own[f] == own[p] && FirstAt(own, f) ==> Distinct(own, f)
  }

  lemma {:induction false} DistinctPrefixClasses(own: seq<int>, n: nat)
    requires n <= |own| && Distinct(own, n)
    ensures Group(own, n).nbOwn == n
    ensures forall i :: 0 <= i < n ==> Group(own, n).index[i] == i
  {
    if n > 0 { DistinctPrefixClasses(own, n - 1); }
  }

  /** The length of the longest prefix of pairwise distinct owners. */
  lemma {:induction false} LongestDistinct(own: seq<int>, n: nat) returns (d: nat)
    requires n <= |own|
    ensures d <= n && Distinct(own, d)
    ensures d < n ==> !FirstAt(own, d)
  {
    if n == 0 {
      d := 0;
    } else {
      d := LongestDistinct(own, n - 1);
      if d == n - 1 && FirstAt(own, d) { d := n; }
    }
  }

  /** Past the distinct prefix, a node either joins the class of its owner's
      first node, or is alone of its owner and opens a class. */
  lemma ClassPastPrefix(own: seq<int>, d: nat, n: nat)
    requires d <= n < |own| && Distinct(own, d) && RepeatersComeFirst(own)
    requires d < |own| ==> !FirstAt(own, d)
    ensures var g := Group(own, n);
            var c := FindClass(own, n, 0, g.nbOwn);
            if c < g.nbOwn
            then c < d && own[c] == own[n]
            else c == g.nbOwn && FirstAt(own, n)
  {
    hide RepeatersComeFirst, Distinct;
    DistinctPrefixClasses(own, d);
    GroupPrefix(own, d, n);
    var f := FirstOwner(own, n);
    FirstOwnerPastPrefix(own, d, n, f);
  }

  lemma FirstOwnerPastPrefix(own: seq<int>, d: nat, n: nat, f: nat)
    requires d <= n < |own| && RepeatersComeFirst(own) && !FirstAt(own, d)
    requires f <= n && own[f] == own[n] && FirstAt(own, f)
    ensures f < d || f == n
  {
    assert d < f < n ==> !Distinct(own, f);
  }

  lemma FirstOwner(own: seq<int>, n: nat) returns (f: nat)
    requires n < |own|
    ensures f <= n && own[f] == own[n] && FirstAt(own, f)
  {
    f := FindClass(own, n, 0, n);
  }

  ghost predicate ExactPrefix(own: seq<int>, index: seq<nat>, n: nat)
    requires n <= |own| && n <= |index|
  {
    forall i, j :: 0 <= i < j < n ==> (index[i] == index[j] <==> own[i] == own[j])
  }

  /** Node n either joins a class named after the first node of its owner, or
      is the first of its owner and opens a class. */
  ghost predicate JoinsOrOpens(own: seq<int>, g: Grouping, n: nat, c: nat)
    requires n < |own| && |g.index| == n
  {
    if c < g.nbOwn then c < n && g.index[c] == c && own[c] == own[n]
    else c == g.nbOwn && FirstAt(own, n)
  }

  lemma JoinsOrOpensHolds(own: seq<int>, d: nat, n: nat)
    requires d <= n < |own| && Distinct(own, d) && RepeatersComeFirst(own)
    requires d < |own| ==> !FirstAt(own, d)
    ensures JoinsOrOpens(own, Group(own, n), n, FindClass(own, n, 0, Group(own, n).nbOwn))
  {
    ClassPastPrefix(own, d, n);
    DistinctPrefixClasses(own, d);
    GroupPrefix(own, d, n);
  }

  lemma GroupStep(own: seq<int>, n: nat)
    requires n < |own|
    ensures var g := Group(own, n);
            var c := FindClass(own, n, 0, g.nbOwn);
            Group(own, n + 1) == Grouping(if c == g.nbOwn then g.nbOwn + 1 else g.nbOwn, g.index + [c])
  {}

  lemma ExactPrefixBase(own: seq<int>, d: nat)
    requires d <= |own| && Distinct(own, d)
    ensures ExactPrefix(own, Group(own, d).index, d)
  {
    DistinctPrefixClasses(own, d);
  }

  lemma {:induction false} ExactUpTo(own: seq<int>, d: nat, n: nat)
    requires d <= n <= |own| && Distinct(own, d) && RepeatersComeFirst(own)
    requires d < |own| ==> !FirstAt(own, d)
    ensures ExactPrefix(own, Group(own, n).index, n)
  {
    hide FindClass, FirstAt, Distinct, RepeatersComeFirst, JoinsOrOpens, ExactPrefix, Group;
    if n == d {
      ExactPrefixBase(own, d);
    } else {
      var g := Group(own, n - 1);
      ExactUpTo(own, d, n - 1);
      JoinsOrOpensHolds(own, d, n - 1);
      ExactSnoc(own, g, n - 1, FindClass(own, n - 1, 0, g.nbOwn));
      GroupStep(own, n - 1);
    }
  }

  lemma ExactSnoc(own: seq<int>, g: Grouping, n: nat, c: nat)
    requires n < |own| && |g.index| == n && ExactPrefix(own, g.index, n)
    requires forall i :: 0 <= i < n ==> g.index[i] < g.nbOwn
    requires JoinsOrOpens(own, g, n, c)
    ensures ExactPrefix(own, g.index + [c], n + 1)
  {
    var h := g.index + [c];
    forall i | 0 <= i < n
      ensures h[i] == h[n] <==> own[i] == own[n]
    {
      if c < g.nbOwn && i < c { assert g.index[i] == g.index[c] <==> own[i] == own[c]; }
      if c < g.nbOwn && c < i { assert g.index[c] == g.index[i] <==> own[c] == own[i]; }
    }
  }

  /** An owner that comes back too late is split in several classes. */
  lemma LateRepeaterIsSplit(own: seq<int>, f: nat, p: nat)
    requires f < p < |own| && own[f] == own[p] && FirstAt(own, f) && !Distinct(own, f)
    ensures CalOwns(own).index[f] != CalOwns(own).index[p]
  {
    var g, h := Group(own, f), Group(own, p);
    var c, e := FindClass(own, f, 0, g.nbOwn), FindClass(own, p, 0, h.nbOwn);
    IndexAt(own, f);
    IndexAt(own, p);
    RepeatsCostClasses(own, f);
    assert c == g.nbOwn < f;
    GroupPrefix(own, f + 1, p);
    assert Group(own, f + 1).nbOwn == g.nbOwn + 1;
  }

  lemma IndexAt(own: seq<int>, n: nat)
    requires n < |own|
    ensures CalOwns(own).index[n] == FindClass(own, n, 0, Group(own, n).nbOwn)
  {
    GroupPrefix(own, n + 1, |own|);
  }

  lemma {:induction false} RepeatsCostClasses(own: seq<int>, n: nat)
    requires n <= |own| && !Distinct(own, n)
    ensures Group(own, n).nbOwn < n
  {
    var d := LongestDistinct(own, n);
    var i :| 0 <= i < d && own[i] == own[d];
    DistinctPrefixClasses(own, d);
    assert FindClass(own, d, 0, d) <= i;
    AtMostOneMoreEach(own, d + 1, n);
  }

  lemma {:induction false} AtMostOneMoreEach(own: seq<int>, m: nat, n: nat)
    requires m <= n <= |own|
    ensures Group(own, n).nbOwn - Group(own, m).nbOwn <= n - m
    decreases n
  {
    if m < n { AtMostOneMoreEach(own, m, n - 1); }
  }

  /** The grouping loop makes one class of each owner exactly when every owner
      that comes back first appears before any other owner has come back. */
  lemma OneClassPerOwnerIff(own: seq<int>)
    ensures OneClassPerOwner(own) <==> RepeatersComeFirst(own)
  {
    if RepeatersComeFirst(own) {
      var d := LongestDistinct(own, |own|);
      ExactUpTo(own, d, |own|);
    } else {
      var f, p :| 0 <= f < p < |own| && own[f] == own[p] && FirstAt(own, f) && !Distinct(own, f);
      LateRepeaterIsSplit(own, f, p);
    }
  }

  /** Two owners with two nodes each, in this order, get three classes. */
  lemma ThreeClassesForTwoOwners(a: int, b: int)
    requires a != b
    ensures CalOwns([a, a, b, b]) == Grouping(3, [0, 0, 1, 2])
    ensures !OneClassPerOwner([a, a, b, b])
  {
    var own := [a, a, b, b];
    assert Group(own, 1) == Grouping(1, [0]);
    assert Group(own, 2) == Grouping(1, [0, 0]);
    assert Group(own, 3) == Grouping(2, [0, 0, 1]) by {
      assert FindClass(own, 2, 0, 1) == 1;
    }
    assert Group(own, 4) == Grouping(3, [0, 0, 1, 2]) by {
      assert FindClass(own, 3, 1, 2) == 2;
    }
  }
}
