/** Orders, and when one matches the next. */
module Orders {
  import opened FlowTypes

  /** A quality is a non-empty text. */
  type Quality = s: string | |s| >= 1 witness "a"

  /** A quantity of the domain dqtt, within the range of a double. */
  type Quantity = q: int | 1 <= q <= INT64_MAX_DOUBLE witness 1

  /** A remaining stock. */
  type Remainder = q: int | 0 <= q <= INT64_MAX_DOUBLE

  datatype Order = Order(
    kind: nat,
    id: int,
    own: int,
    oid: int,
    qttRequ: Quantity,
    quaRequ: Quality,
    qttProv: Quantity,
    quaProv: Quality,
    qtt: Remainder)

  /** The node of a flow for an order; its probability is not yet known. */
  function ToFl(o: Order): Tfl {
    Tfl(o.kind, o.id, o.oid, o.own, o.qttRequ, o.qttProv, o.qtt, 0.0)
  }

  /** The number of '*' at the head of a quality. */
  function Stars(s: string): (n: nat)
    ensures n <= |s| && (n < |s| ==> s[n] != '*')
    ensures forall i :: 0 <= i < n ==> s[i] == '*'
  {
    if |s| == 0 || s[0] != '*' then 0 else 1 + Stars(s[1..])
  }

  /** A required quality that starts with '*' is met by every quality provided
      that starts with the rest of it; any other one only by itself. */
  predicate MatchQuality(prov: string, requ: string) {
    var n := Stars(requ);
    if n == 0 then prov == requ else requ[n..] <= prov
  }

  /** The text from k on comes after all the stars at the head. */
  predicate AfterStars(requ: string, k: int) {
    0 <= k <= |requ| && (forall i :: 0 <= i < k ==> requ[i] == '*') && (k < |requ| ==> requ[k] != '*')
  }

  ghost predicate BeginsWith(s: string, t: string) {
    exists u: string :: s == t + u
  }

  /** What is asked for: without a star at the head, this very quality; with stars, any
      quality that begins with what comes after them. */
  ghost predicate Meets(prov: string, requ: string) {
    && (requ == "" || requ[0] != '*' ==> prov == requ)
    && forall k :: 1 <= k && AfterStars(requ, k) ==> BeginsWith(prov, requ[k..])
  }

  lemma {:induction false} StarsCounted(s: string, k: int)
    requires AfterStars(s, k)
    ensures Stars(s) == k
  {
    if k > 0 {
      assert forall i :: 0 <= i < k - 1 ==> s[1..][i] == s[i + 1];
      StarsCounted(s[1..], k - 1);
    }
  }

  /** The edges of the cycles are the qualities that are asked for. */
  lemma QualitiesMeet(prov: string, requ: string)
    ensures MatchQuality(prov, requ) <==> Meets(prov, requ)
  {
    if requ == "" || requ[0] != '*' { StarsCounted(requ, 0); } else { assert AfterStars(requ, Stars(requ)); }
    forall k | 1 <= k && AfterStars(requ, k)
      ensures MatchQuality(prov, requ) <==> BeginsWith(prov, requ[k..])
    {
      StarsCounted(requ, k);
      var t := requ[k..];
      if t <= prov { assert prov == t + prov[|t|..]; }
    }
  }

  /** The comparison as the code makes it, by moving the start of the required
      quality and limiting the length compared. */
  method YorderMatchQuality(prov: string, requ: string) returns (r: Result<bool>)
    ensures r.Err? <==> prov == "" || requ == ""
    ensures r.Err? ==> r.error == QualityEmpty
    ensures r.Ok? ==> r.value == MatchQuality(prov, requ)
    ensures r.Ok? ==> (r.value <==> Meets(prov, requ))
  {
    QualitiesMeet(prov, requ);
    var lv, lu := |prov|, |requ|;
    var l := if lu < lv then lu else lv;
    if l < 1 {
      return Err(QualityEmpty);
    }
    var k, p := 0, 0;
    while lu > 0 && requ[p] == '*'
      invariant 0 <= p <= |requ| && lu == |requ| - p
      invariant k == (if p == 0 then 0 else 1)
      invariant Stars(requ) == p + Stars(requ[p..])
    {
      assert requ[p..][1..] == requ[p + 1..];
      k := 1;
      p, lu := p + 1, lu - 1;
    }
    assert Stars(requ[p..]) == 0 && Stars(requ) == p;
    ghost var rest := requ[p..];
    assert p + lu == |requ|;
    assert requ[p..p + lu] == rest;
    if k != 0 && lv > lu {
      lv := lu;
    }
    if lu != lv {
      return Ok(false);
    }
    r := Ok(requ[p..p + lu] == prov[..lv]);
  }

  /** Positions always match: every order is at the same point, with distance 0. */
  predicate Matches(prev: Order, next: Order) {
    MatchQuality(prev.quaProv, next.quaRequ)
  }
}
