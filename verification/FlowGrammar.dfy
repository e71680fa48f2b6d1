/** The grammar of the text form of a flow, and what it reads of a printed flow. */
module FlowGrammar {
  import opened FlowTypes
  import opened FlowText

  // ---------------------------------------------------------------------------
  // The grammar

  /** The cast to int32. */
  function Int32(v: int): (w: int)
    ensures -0x8000_0000 <= w < 0x8000_0000
    ensures -0x8000_0000 <= v < 0x8000_0000 ==> w == v
  {
    (v + 0x8000_0000) % 0x1_0000_0000 - 0x8000_0000
  }

  /** The cast wraps around. */
  lemma Int32Wraps(v: int)
    ensures (v - Int32(v)) % 0x1_0000_0000 == 0
    ensures Int32(0x8000_0000) == -0x8000_0000 && Int32(-0x8000_0001) == 0x7FFF_FFFF
  {
    var q := (v + 0x8000_0000) / 0x1_0000_0000;
    assert v - Int32(v) == 0x1_0000_0000 * q;
  }

  const MAX_ORDER_TYPE: nat := 256

  predicate ValidType(kind: int) {
    0 < kind <= MAX_ORDER_TYPE
  }

  datatype Parsed<+T> = Parsed(item: T, rest: seq<Token>)

  /** k times FLOWINT COMMA. */
  function ParseFields(ts: seq<Token>, k: nat): (r: Result<Parsed<seq<ScannedInt>>>)
    ensures r.Ok? ==> |r.value.item| == k && |r.value.rest| <= |ts|
  {
    if k == 0 then Ok(Parsed([], ts))
    else if |ts| >= 2 && ts[0].FlowInt? && ts[1] == Comma then
      var p :- ParseFields(ts[2..], k - 1);
      Ok(Parsed([ts[0].val] + p.item, p.rest))
    else Err(BadText)
  }

  /** The action of a node: its fields are cast, and its type is checked. */
  function MakeNode(ns: seq<ScannedInt>, proba: real): Result<Tfl>
    requires |ns| == 7
  {
    if !ValidType(Int32(ns[0])) then Err(BadText)
    else Ok(Tfl(Int32(ns[0]), Int32(ns[1]), Int32(ns[2]), Int32(ns[3]), ns[4], ns[5], ns[6], proba))
  }

  function ParseNode(ts: seq<Token>): (r: Result<Parsed<Tfl>>)
    ensures r.Ok? ==> |r.value.rest| < |ts|
  {
    if |ts| == 0 || ts[0] != OParen then Err(BadText)
    else
      var p :- ParseFields(ts[1..], 7);
      if |p.rest| < 2 || !p.rest[0].Number? || p.rest[1] != CParen then Err(BadText)
      else
        var b :- MakeNode(p.item, p.rest[0].dval);
        Ok(Parsed(b, p.rest[2..]))
  }

  /** What follows the nodes `x`: the end, or a comma and one more node. */
  function ParseRest(ts: seq<Token>, x: seq<Tfl>): Result<seq<Tfl>>
    decreases |ts|
  {
    if ts == [CBracket] then Ok(x)
    else if |ts| == 0 || ts[0] != Comma then Err(BadText)
    else
      var p :- ParseNode(ts[1..]);
      if |x| + 1 > FLOW_MAX_DIM then Err(BadText) else ParseRest(p.rest, x + [p.item])
  }

  function ParseBox(ts: seq<Token>): Result<seq<Tfl>> {
    if |ts| == 0 || ts[0] != OBracket then Err(BadText)
    else if ts[1..] == [CBracket] then Ok([])
    else
      var p :- ParseNode(ts[1..]);
      ParseRest(p.rest, [p.item])
  }

  /** The parser extends the flow it builds, node after node. */
  method Yyparse(tokens: seq<Token>) returns (r: Result<seq<Tfl>>)
    ensures r == ParseBox(tokens)
  {
    if |tokens| == 0 || tokens[0] != OBracket { return Err(BadText); }
    var pf: seq<Tfl> := [];
    if tokens[1..] == [CBracket] { return Ok(pf); }
    var p :- ParseNode(tokens[1..]);
    pf := pf + [p.item];
    assert pf == [p.item];
    var ts := p.rest;
    while ts != [CBracket]
      invariant ParseBox(tokens) == ParseRest(ts, pf)
      decreases |ts|
    {
      if |ts| == 0 || ts[0] != Comma { return Err(BadText); }
      var q :- ParseNode(ts[1..]);
      if |pf| + 1 > FLOW_MAX_DIM { return Err(BadText); }
      pf := pf + [q.item];
      ts := q.rest;
    }
    return Ok(pf);
  }

  // ---------------------------------------------------------------------------
  // The productions

  /** What a grammar without actions derives: the fields of a node as they are cast. */
  predicate IsNode(ns: seq<ScannedInt>, proba: real, b: Tfl)
    requires |ns| == 7
  {
    b == Tfl(b.kind, Int32(ns[1]), Int32(ns[2]), Int32(ns[3]), ns[4], ns[5], ns[6], proba) && b.kind == Int32(ns[0])
  }

  /** bid: O_PAREN, seven times FLOWINT COMMA, NUMBER C_PAREN. */
  predicate DerivesBid(ts: seq<Token>, b: Tfl) {
    && |ts| == 17
    && ts[0] == OParen && ts[15].Number? && ts[16] == CParen
    && (forall k :: 0 <= k < 7 ==> ts[2 * k + 1].FlowInt? && ts[2 * k + 2] == Comma)
    && IsNode(BidFields(ts), ts[15].dval, b)
  }

  function BidFields(ts: seq<Token>): (ns: seq<ScannedInt>)
    requires |ts| == 17 && forall k :: 0 <= k < 7 ==> ts[2 * k + 1].FlowInt?
    ensures |ns| == 7 && forall k :: 0 <= k < 7 ==> ns[k] == ts[2 * k + 1].val
  {
    seq(7, k requires 0 <= k < 7 => ts[2 * k + 1].val)
  }

  /** bid_list: bid, or bid_list COMMA bid. */
  ghost predicate DerivesList(ts: seq<Token>, x: seq<Tfl>)
    decreases |x|
  {
    if |x| == 0 then false
    else if |x| == 1 then DerivesBid(ts, x[0])
    else exists k :: 0 <= k < |ts| && ts[k] == Comma && DerivesListThenBid(ts, x, k)
  }

  ghost predicate DerivesListThenBid(ts: seq<Token>, x: seq<Tfl>, k: int)
    requires |x| >= 2 && 0 <= k < |ts|
    decreases |x|, 0
  {
    DerivesList(ts[..k], x[..|x| - 1]) && DerivesBid(ts[k + 1..], x[|x| - 1])
  }

  /** box: O_BRACKET C_BRACKET, or O_BRACKET bid_list C_BRACKET. */
  ghost predicate DerivesBox(ts: seq<Token>, x: seq<Tfl>) {
    && |ts| >= 2 && ts[0] == OBracket && ts[|ts| - 1] == CBracket
    && if |ts| == 2 then x == [] else DerivesList(ts[1..|ts| - 1], x)
  }

  predicate AllValidTypes(x: seq<Tfl>) {
    forall i :: 0 <= i < |x| ==> 1 <= x[i].kind <= 256
  }

  lemma {:induction false} FieldsParsed(ts: seq<Token>, k: nat)
    ensures ParseFields(ts, k).Ok? <==>
            2 * k <= |ts| && forall i :: 0 <= i < k ==> ts[2 * i].FlowInt? && ts[2 * i + 1] == Comma
    ensures ParseFields(ts, k).Ok? ==>
              && ParseFields(ts, k).value.rest == ts[2 * k..]
              && forall i :: 0 <= i < k ==> ParseFields(ts, k).value.item[i] == ts[2 * i].val
    ensures ParseFields(ts, k).Err? ==> ParseFields(ts, k) == Err(BadText)
  {
    if k > 0 && |ts| >= 2 && ts[0].FlowInt? && ts[1] == Comma {
      FieldsParsed(ts[2..], k - 1);
      var r := ParseFields(ts[2..], k - 1);
      if r.Ok? {
        forall i | 0 <= i < k
          ensures ts[2 * i].FlowInt? && ts[2 * i + 1] == Comma
          ensures ParseFields(ts, k).value.item[i] == ts[2 * i].val
        {
          if i > 0 { assert ts[2..][2 * (i - 1)] == ts[2 * i] && ts[2..][2 * (i - 1) + 1] == ts[2 * i + 1]; }
        }
      } else if 2 * k <= |ts| && forall i :: 0 <= i < k ==> ts[2 * i].FlowInt? && ts[2 * i + 1] == Comma {
        forall i | 0 <= i < k - 1
          ensures ts[2..][2 * i].FlowInt? && ts[2..][2 * i + 1] == Comma
        {
          assert ts[2 * (i + 1)].FlowInt? && ts[2 * (i + 1) + 1] == Comma;
        }
      }
    } else if k > 0 {
      assert 2 * k <= |ts| ==> !(ts[2 * 0].FlowInt? && ts[2 * 0 + 1] == Comma);
    }
  }

  /** A node is parsed if and only if the tokens begin with a bid of a valid type. */
  lemma NodeParsed(ts: seq<Token>)
    ensures ParseNode(ts).Ok? ==>
              && |ts| >= 17 && DerivesBid(ts[..17], ParseNode(ts).value.item)
              && ValidType(ParseNode(ts).value.item.kind) && ParseNode(ts).value.rest == ts[17..]
    ensures ParseNode(ts).Err? ==> ParseNode(ts) == Err(BadText)
  {
    if |ts| > 0 && ts[0] == OParen {
      FieldsParsed(ts[1..], 7);
      var p := ParseFields(ts[1..], 7);
      if ParseNode(ts).Ok? {
        var t, b := ts[..17], ParseNode(ts).value.item;
        assert p.value.rest == ts[15..];
        forall k | 0 <= k < 7
          ensures t[2 * k + 1].FlowInt? && t[2 * k + 2] == Comma && p.value.item[k] == t[2 * k + 1].val
        {
          assert ts[1..][2 * k] == t[2 * k + 1] && ts[1..][2 * k + 1] == t[2 * k + 2];
        }
        assert BidFields(t) == p.value.item;
      }
    }
  }

  lemma BidIsParsed(bid: seq<Token>, b: Tfl, rest: seq<Token>)
    requires DerivesBid(bid, b)
    ensures ParseNode(bid + rest) == if ValidType(b.kind) then Ok(Parsed(b, rest)) else Err(BadText)
  {
    var ts := bid + rest;
    FieldsParsed(ts[1..], 7);
    forall k | 0 <= k < 7
      ensures ts[1..][2 * k].FlowInt? && ts[1..][2 * k + 1] == Comma && ts[1..][2 * k].val == BidFields(bid)[k]
    {
      assert ts[1..][2 * k] == bid[2 * k + 1] && ts[1..][2 * k + 1] == bid[2 * k + 2];
    }
    var p := ParseFields(ts[1..], 7).value;
    assert p.rest == ts[15..] && p.rest[2..] == rest;
    assert p.item == BidFields(bid);
  }

  /** Tokens parsed after a first node: each COMMA bid, and the end. */
  ghost predicate DerivesMore(ts: seq<Token>, x: seq<Tfl>)
    decreases |x|
  {
    if |x| == 0 then ts == [CBracket]
    else |ts| >= 18 && ts[0] == Comma && DerivesBid(ts[1..18], x[0]) && DerivesMore(ts[18..], x[1..])
  }

  lemma {:induction false} MoreParsed(ts: seq<Token>, acc: seq<Tfl>)
    requires |acc| <= FLOW_MAX_DIM
    ensures var r := ParseRest(ts, acc);
            if r.Ok? then
              && acc <= r.value && |r.value| <= FLOW_MAX_DIM
              && DerivesMore(ts, r.value[|acc|..]) && AllValidTypes(r.value[|acc|..])
            else r == Err(BadText)
    decreases |ts|
  {
    hide DerivesBid, ParseNode;
    if ts == [CBracket] {
      assert acc[|acc|..] == [];
    } else if |ts| > 0 && ts[0] == Comma {
      NodeParsed(ts[1..]);
      var p := ParseNode(ts[1..]);
      if p.Ok? && |acc| + 1 <= FLOW_MAX_DIM {
        var b, rest := p.value.item, p.value.rest;
        assert ts[1..][..17] == ts[1..18] && ts[1..][17..] == ts[18..];
        MoreParsed(rest, acc + [b]);
        var r := ParseRest(rest, acc + [b]);
        if r.Ok? {
          assert r.value[|acc|] == b;
          assert r.value[|acc|..][1..] == r.value[|acc| + 1..];
          assert r.value[|acc|..] == [b] + r.value[|acc| + 1..];
        }
      }
    }
  }

  lemma {:induction false} MoreIsParsed(ts: seq<Token>, acc: seq<Tfl>, x: seq<Tfl>)
    requires DerivesMore(ts, x) && AllValidTypes(x) && |acc| + |x| <= FLOW_MAX_DIM
    ensures ParseRest(ts, acc) == Ok(acc + x)
    decreases |x|
  {
    hide DerivesBid, ParseNode;
    if |x| == 0 {
      assert acc + x == acc;
    } else {
      BidIsParsed(ts[1..18], x[0], ts[18..]);
      assert ts[1..] == ts[1..18] + ts[18..];
      MoreIsParsed(ts[18..], acc + [x[0]], x[1..]);
      assert acc + [x[0]] + x[1..] == acc + x;
    }
  }

  /** The left recursion of the grammar, read from the left. */
  lemma {:induction false} ListFromLeft(ts: seq<Token>, x: seq<Tfl>)
    requires |x| >= 1
    ensures DerivesList(ts, x) <==> FromLeft(ts, x)
    decreases |x|
  {
    hide DerivesBid, DerivesMore, FromLeft;
    if |x| == 1 {
      OneBid(ts, x[0]);
      assert x == [x[0]];
    } else {
      var n := |x| - 1;
      if DerivesList(ts, x) {
        var k :| 0 <= k < |ts| && ts[k] == Comma && DerivesListThenBid(ts, x, k);
        ListFromLeft(ts[..k], x[..n]);
        FromLeftSnoc(ts, x, k);
      }
      if FromLeft(ts, x) {
        var j := FromLeftSplit(ts, x);
        ListFromLeft(ts[..j], x[..n]);
        assert DerivesListThenBid(ts, x, j);
      }
    }
  }

  /** The first node, and then the others after their commas. */
  ghost predicate FromLeft(ts: seq<Token>, x: seq<Tfl>)
    requires |x| >= 1
  {
    |ts| >= 17 && DerivesBid(ts[..17], x[0]) && DerivesMore(ts[17..] + [CBracket], x[1..])
  }

  lemma FromLeftSnoc(ts: seq<Token>, x: seq<Tfl>, k: nat)
    requires |x| >= 2 && k < |ts| && ts[k] == Comma
    requires FromLeft(ts[..k], x[..|x| - 1]) && DerivesBid(ts[k + 1..], x[|x| - 1])
    ensures FromLeft(ts, x)
  {
    hide DerivesBid, DerivesMore;
    var n := |x| - 1;
    assert ts[..k][..17] == ts[..17] && x[..n][1..] == x[1..][..n - 1];
    MoreSnoc(ts[..k][17..], x[1..][..n - 1], ts[k + 1..], x[n]);
    assert x[1..] == x[1..][..n - 1] + [x[n]];
    assert ts[17..] == ts[..k][17..] + [Comma] + ts[k + 1..];
  }

  lemma FromLeftSplit(ts: seq<Token>, x: seq<Tfl>) returns (j: nat)
    requires |x| >= 2 && FromLeft(ts, x)
    ensures j < |ts| && ts[j] == Comma
    ensures FromLeft(ts[..j], x[..|x| - 1]) && DerivesBid(ts[j + 1..], x[|x| - 1])
  {
    hide DerivesBid, DerivesMore;
    var n := |x| - 1;
    var k := MoreSplit(ts[17..], x[1..]);
    j := 17 + k;
    assert ts[j] == ts[17..][k] && ts[j + 1..] == ts[17..][k + 1..];
    assert ts[..j][..17] == ts[..17] && ts[..j][17..] == ts[17..][..k];
    assert x[..n][1..] == x[1..][..n - 1] && x[1..][n - 1] == x[n];
  }

  lemma OneBid(ts: seq<Token>, b: Tfl)
    ensures DerivesBid(ts, b) <==> FromLeft(ts, [b])
  {
    BidSize(ts, b);
    hide DerivesBid;
    assert [b][1..] == [];
    if |ts| == 17 { assert ts[..17] == ts && ts[17..] + [CBracket] == [CBracket]; }
    if |ts| > 17 { assert |ts[17..] + [CBracket]| > 1; }
  }

  lemma BidSize(ts: seq<Token>, b: Tfl)
    ensures DerivesBid(ts, b) ==> |ts| == 17
  {}

  lemma {:induction false} MoreSnoc(ts: seq<Token>, x: seq<Tfl>, bid: seq<Token>, b: Tfl)
    requires DerivesMore(ts + [CBracket], x) && DerivesBid(bid, b)
    ensures DerivesMore(ts + [Comma] + bid + [CBracket], x + [b])
    decreases |x|
  {
    BidSize(bid, b);
    hide DerivesBid;
    var us := ts + [Comma] + bid + [CBracket];
    if |x| == 0 {
      assert ts == [] by { assert |ts + [CBracket]| == 1; }
      assert us[1..18] == bid && us[18..] == [CBracket];
      assert (x + [b])[1..] == [];
    } else {
      var rest := ts[18..];
      LongMore(ts, x);
      assert (ts + [CBracket])[18..] == rest + [CBracket];
      assert (ts + [CBracket])[1..18] == us[1..18];
      MoreSnoc(rest, x[1..], bid, b);
      assert us[18..] == rest + [Comma] + bid + [CBracket];
      assert (x + [b])[1..] == x[1..] + [b];
    }
  }

  lemma LongMore(ts: seq<Token>, x: seq<Tfl>)
    requires DerivesMore(ts + [CBracket], x) && |x| > 0
    ensures |ts| >= 18
  {
    hide DerivesBid;
    var us := ts + [CBracket];
    assert DerivesMore(us[18..], x[1..]);
    MoreNotEmpty(us[18..], x[1..]);
  }

  lemma MoreNotEmpty(ts: seq<Token>, x: seq<Tfl>)
    requires DerivesMore(ts, x)
    ensures |ts| >= 1
  {}

  /** The last bid of a list. */
  lemma {:induction false} MoreSplit(ts: seq<Token>, x: seq<Tfl>) returns (k: nat)
    requires |x| >= 1 && DerivesMore(ts + [CBracket], x)
    ensures k < |ts| && ts[k] == Comma && DerivesBid(ts[k + 1..], x[|x| - 1])
    ensures DerivesMore(ts[..k] + [CBracket], x[..|x| - 1])
    decreases |x|
  {
    hide DerivesBid;
    LongMore(ts, x);
    var us := ts + [CBracket];
    assert us[18..] == ts[18..] + [CBracket] && us[1..18] == ts[1..18];
    if |x| == 1 {
      k := 0;
      assert x[1..] == [] && ts[18..] + [CBracket] == [CBracket];
      assert |ts| == 18 by { assert |ts[18..] + [CBracket]| == 1; }
      assert ts[1..] == ts[1..18];
      assert ts[..0] + [CBracket] == [CBracket] && x[..0] == [];
    } else {
      var j := MoreSplit(ts[18..], x[1..]);
      k := 18 + j;
      assert ts[18..][j + 1..] == ts[k + 1..] && x[1..][|x| - 2] == x[|x| - 1];
      assert x[1..][..|x| - 2] == x[..|x| - 1][1..];
      var vs := ts[..k] + [CBracket];
      assert vs[18..] == ts[18..][..j] + [CBracket] && vs[1..18] == ts[1..18];
    }
  }

  /** The parser accepts tokens exactly when the grammar derives a flow from them whose
      nodes have valid types and are at most 64, and returns this flow; otherwise it
      raises. */
  lemma ParserIsGrammar(ts: seq<Token>, x: seq<Tfl>)
    ensures ParseBox(ts) == Ok(x) <==> DerivesBox(ts, x) && AllValidTypes(x) && |x| <= 64
    ensures ParseBox(ts).Err? ==> ParseBox(ts) == Err(BadText)
  {
    hide ParseNode, ParseRest, DerivesList, AllValidTypes;
    if |ts| > 0 && ts[0] == OBracket {
      if ts[1..] == [CBracket] {
        NoTypes();
        ListNotEmpty(ts, x);
      } else {
        BoxParsed(ts);
        if DerivesBox(ts, x) && AllValidTypes(x) && |x| <= FLOW_MAX_DIM { BoxIsParsed(ts, x); }
      }
    }
  }

  lemma NoTypes()
    ensures AllValidTypes([])
  {}

  lemma ListNotEmpty(ts: seq<Token>, x: seq<Tfl>)
    requires |ts| > 0 && ts[1..] == [CBracket]
    ensures |ts| == 2 && ts[1] == CBracket
  {
    assert ts[1..][0] == ts[1];
  }

  lemma BoxParsed(ts: seq<Token>)
    requires |ts| > 0 && ts[0] == OBracket && ts[1..] != [CBracket]
    ensures var r := ParseBox(ts);
            if r.Ok? then DerivesBox(ts, r.value) && AllValidTypes(r.value) && |r.value| <= FLOW_MAX_DIM
            else r == Err(BadText)
  {
    hide DerivesBid, ParseNode, ParseRest, DerivesMore;
    NodeParsed(ts[1..]);
    var p := ParseNode(ts[1..]);
    if p.Ok? {
      MoreParsed(p.value.rest, [p.value.item]);
      var r := ParseRest(p.value.rest, [p.value.item]);
      if r.Ok? {
        var x := r.value;
        assert x == [p.value.item] + x[1..];
        EndsWithBracket(p.value.rest, x[1..]);
        var list := ts[1..|ts| - 1];
        assert |ts| >= 19 && ts[|ts| - 1] == CBracket;
        InsideBrackets(ts, list);
        ListFromLeft(list, x);
        hide DerivesList;
        BoxOf(ts, list, x);
      }
    }
  }

  lemma BoxOf(ts: seq<Token>, list: seq<Token>, x: seq<Tfl>)
    requires |ts| >= 3 && ts[0] == OBracket && ts[|ts| - 1] == CBracket && list == ts[1..|ts| - 1]
    requires DerivesList(list, x)
    ensures DerivesBox(ts, x)
  {
    hide DerivesList;
  }

  lemma InsideBrackets(ts: seq<Token>, list: seq<Token>)
    requires |ts| >= 19 && ts[|ts| - 1] == CBracket && list == ts[1..|ts| - 1]
    ensures ts[1..][..17] == list[..17] && ts[1..][17..] == list[17..] + [CBracket]
  {}

  lemma {:induction false} EndsWithBracket(ts: seq<Token>, x: seq<Tfl>)
    requires DerivesMore(ts, x)
    ensures |ts| >= 1 && ts[|ts| - 1] == CBracket
    decreases |x|
  {
    hide DerivesBid;
    if |x| > 0 { EndsWithBracket(ts[18..], x[1..]); }
  }

  lemma BoxIsParsed(ts: seq<Token>, x: seq<Tfl>)
    requires DerivesBox(ts, x) && |ts| > 2 && AllValidTypes(x) && |x| <= FLOW_MAX_DIM
    ensures ParseBox(ts) == Ok(x)
  {
    hide DerivesBid, ParseNode, ParseRest, DerivesMore;
    var list := ts[1..|ts| - 1];
    NotEmptyList(list, x);
    ListFromLeft(list, x);
    hide DerivesList;
    var more := list[17..] + [CBracket];
    assert ts[1..] == list[..17] + more;
    BidIsParsed(list[..17], x[0], more);
    MoreIsParsed(more, [x[0]], x[1..]);
    assert [x[0]] + x[1..] == x;
  }

  lemma NotEmptyList(ts: seq<Token>, x: seq<Tfl>)
    requires DerivesList(ts, x)
    ensures |x| >= 1
  {}

  // ---------------------------------------------------------------------------
  // Reading what was printed

  predicate FitsInt32(v: int) {
    -0x8000_0000 <= v < 0x8000_0000
  }

  /** The fields have the widths of the C structure. */
  predicate FitsStruct(b: Tfl) {
    && FitsInt32(b.kind) && FitsInt32(b.id) && FitsInt32(b.oid) && FitsInt32(b.own)
    && b.qttRequ <= INT64_MAX && b.qttProv <= INT64_MAX
  }

  predicate AllFitStruct(x: seq<Tfl>) {
    forall i :: 0 <= i < |x| ==> FitsStruct(x[i])
  }

  /** The grammar has no sign. */
  predicate NodeReadable(b: Tfl) {
    1 <= b.kind <= 256 && b.id >= 0 && b.oid >= 0 && b.own >= 0 && b.qtt >= 0 && b.proba >= 0.0
  }

  predicate Readable(x: seq<Tfl>) {
    |x| <= FLOW_MAX_DIM && NodesReadable(x)
  }

  predicate NodesReadable(x: seq<Tfl>) {
    forall i :: 0 <= i < |x| ==> NodeReadable(x[i])
  }

  /** The node read has the probability of the text. */
  function ReadNode(b: Tfl): Tfl {
    if b.proba < 0.0 then b else b.(proba := ReadProba(b.proba))
  }

  function ReadNodes(x: seq<Tfl>): (y: seq<Tfl>)
    ensures |y| == |x| && forall i :: 0 <= i < |x| ==> y[i] == ReadNode(x[i])
  {
    seq(|x|, i requires 0 <= i < |x| => ReadNode(x[i]))
  }

  function RestTokens(x: seq<Tfl>): seq<Token> {
    if |x| == 0 then [] else [Comma] + NodeTokens(x[0]) + RestTokens(x[1..])
  }

  predicate Scannable(ns: seq<int>) {
    forall i :: 0 <= i < |ns| ==> 0 <= ns[i]
  }

  lemma {:induction false} ParsePrintedFields(ns: seq<int>, rest: seq<Token>)
    requires forall i :: 0 <= i < |ns| ==> ns[i] <= INT64_MAX
    ensures ParseFields(FieldTokens(ns) + rest, |ns|) ==
            if Scannable(ns) then Ok(Parsed(ns, rest)) else Err(BadText)
  {
    var ts := FieldTokens(ns) + rest;
    if |ns| == 0 {
      assert ts == rest;
    } else {
      ParsePrintedFields(ns[1..], rest);
      if ns[0] >= 0 {
        assert ts[2..] == FieldTokens(ns[1..]) + rest;
        assert ns == [ns[0]] + ns[1..];
        assert Scannable(ns) <==> Scannable(ns[1..]);
      }
    }
  }

  lemma FieldsScannable(b: Tfl)
    ensures Scannable(Fields(b)) <==> b.id >= 0 && b.oid >= 0 && b.own >= 0 && b.qtt >= 0
  {
    var ns := Fields(b);
    assert ns[1] == b.id && ns[2] == b.oid && ns[3] == b.own && ns[6] == b.qtt;
  }

  lemma ParsePrintedNode(b: Tfl, rest: seq<Token>)
    requires FitsStruct(b)
    ensures ParseNode(NodeTokens(b) + rest) ==
            if NodeReadable(b) then Ok(Parsed(ReadNode(b), rest)) else Err(BadText)
  {
    hide FieldTokens, ParseFields, Scannable, ReadProba;
    var ts, tail := NodeTokens(b) + rest, ProbaTokens(b.proba) + [CParen] + rest;
    assert ts[1..] == FieldTokens(Fields(b)) + tail;
    ParsePrintedFields(Fields(b), tail);
    FieldsScannable(b);
    if b.proba >= 0.0 { assert tail[2..] == rest; }
  }

  lemma {:induction false} ParsePrintedRest(x: seq<Tfl>, acc: seq<Tfl>)
    requires AllFitStruct(x) && |acc| <= FLOW_MAX_DIM
    ensures ParseRest(RestTokens(x) + [CBracket], acc) ==
            if NodesReadable(x) && |acc| + |x| <= FLOW_MAX_DIM then Ok(acc + ReadNodes(x)) else Err(BadText)
  {
    hide NodeTokens, ParseNode, FitsStruct, NodeReadable, ReadNode;
    var ts := RestTokens(x) + [CBracket];
    if |x| == 0 {
      assert ts == [CBracket] && acc + ReadNodes(x) == acc;
    } else {
      var more := RestTokens(x[1..]) + [CBracket];
      assert ts[0] == Comma && ts[1..] == NodeTokens(x[0]) + more;
      ParsePrintedNode(x[0], more);
      NodesReadableCons(x);
      if NodeReadable(x[0]) && |acc| + 1 <= FLOW_MAX_DIM {
        ParsePrintedRest(x[1..], acc + [ReadNode(x[0])]);
        assert acc + [ReadNode(x[0])] + ReadNodes(x[1..]) == acc + ReadNodes(x);
      }
    }
  }

  lemma NodesReadableCons(x: seq<Tfl>)
    requires |x| > 0
    ensures NodesReadable(x) <==> NodeReadable(x[0]) && NodesReadable(x[1..])
  {
    hide NodeReadable;
    if NodeReadable(x[0]) && NodesReadable(x[1..]) {
      forall i | 0 <= i < |x|
        ensures NodeReadable(x[i])
      {
        if i > 0 { assert x[1..][i - 1] == x[i]; }
      }
    }
  }

  lemma {:induction false} RestTokensSnoc(x: seq<Tfl>, b: Tfl)
    ensures RestTokens(x + [b]) == RestTokens(x) + [Comma] + NodeTokens(b)
  {
    hide NodeTokens;
    if |x| == 0 {
      assert x + [b] == [b];
    } else {
      assert (x + [b])[1..] == x[1..] + [b];
      RestTokensSnoc(x[1..], b);
    }
  }

  lemma {:induction false} NodesTokensForward(x: seq<Tfl>)
    requires |x| > 0
    ensures NodesTokens(x) == NodeTokens(x[0]) + RestTokens(x[1..])
  {
    hide NodeTokens;
    var n := |x| - 1;
    if n > 0 {
      NodesTokensForward(x[..n]);
      assert x[1..] == x[..n][1..] + [x[n]];
      RestTokensSnoc(x[..n][1..], x[n]);
    }
  }

  /** The text of a flow is read back, with six decimals of the probabilities,
      exactly when it has at most 64 nodes, of valid types, and no number printed
      with a sign; otherwise reading raises. */
  lemma PrintedReadsBack(x: seq<Tfl>)
    requires AllFitStruct(x)
    ensures ParseBox(Scan(Print(x))) == if Readable(x) then Ok(ReadNodes(x)) else Err(BadText)
  {
    hide Scan, Print, NodeTokens, ParseNode, NodesTokens, RestTokens, FitsStruct, NodeReadable, ReadNode;
    ScanPrinted(x);
    var ts := [OBracket] + NodesTokens(x) + [CBracket];
    if |x| == 0 {
      NoNodes(x);
      assert ts[1..] == [CBracket];
      assert ReadNodes(x) == [];
    } else {
      NodesTokensForward(x);
      var more := RestTokens(x[1..]) + [CBracket];
      assert ts[1..] == NodeTokens(x[0]) + more;
      ParsePrintedNode(x[0], more);
      NodesReadableCons(x);
      NodeNotEnd(x[0], more);
      ParsePrintedRest(x[1..], [ReadNode(x[0])]);
      assert [ReadNode(x[0])] + ReadNodes(x[1..]) == ReadNodes(x);
    }
  }

  lemma NoNodes(x: seq<Tfl>)
    requires |x| == 0
    ensures NodesTokens(x) == []
  {}

  lemma NodeNotEnd(b: Tfl, rest: seq<Token>)
    ensures NodeTokens(b) + rest != [CBracket]
  {
    assert (NodeTokens(b) + rest)[0] == OParen;
  }

  // ---------------------------------------------------------------------------
  // Six decimals

  predicate SixDecimals(p: real) {
    p >= 0.0 && p * MILLION as real == (p * MILLION as real).Floor as real
  }

  /** A probability with at most six decimals is read unchanged. */
  lemma SixDecimalsRead(p: real)
    requires SixDecimals(p)
    ensures ReadProba(p) == p
  {}

  lemma ReadHasSixDecimals(p: real)
    requires p >= 0.0
    ensures SixDecimals(ReadProba(p)) && Micro(ReadProba(p)) == Micro(p)
  {
    var m := Micro(p);
    assert ReadProba(p) * MILLION as real == m as real;
    assert (m as real).Floor == m;
  }

  lemma {:induction false} SameTextNodes(x: seq<Tfl>)
    requires NodesReadable(x)
    ensures PrintNodes(ReadNodes(x)) == PrintNodes(x)
  {
    hide PrintFields, Fields, PrintFixed, Micro, ReadProba;
    if |x| > 0 {
      var n := |x| - 1;
      assert ReadNodes(x)[..n] == ReadNodes(x[..n]);
      SameTextNodes(x[..n]);
      assert NodeReadable(x[n]);
      SameTextNode(x[n]);
    }
  }

  lemma SameTextNode(b: Tfl)
    requires NodeReadable(b)
    ensures PrintNode(ReadNode(b)) == PrintNode(b)
  {
    hide PrintFields, PrintFixed, Micro, ReadProba;
    ReadHasSixDecimals(b.proba);
    assert Fields(ReadNode(b)) == Fields(b);
  }

  /** Reading a text that was printed and printing it again gives the same text,
      whatever the probabilities. */
  lemma TextIsStable(x: seq<Tfl>)
    requires AllFitStruct(x) && Readable(x)
    ensures ParseBox(Scan(Print(x))).Ok? && Print(ParseBox(Scan(Print(x))).value) == Print(x)
  {
    hide Scan, PrintNodes, NodeReadable;
    PrintedReadsBack(x);
    SameTextNodes(x);
  }

  /** Fields and six-decimal probabilities make the round trip unchanged. */
  lemma SixDecimalsReadBack(x: seq<Tfl>)
    requires AllFitStruct(x) && Readable(x) && forall i :: 0 <= i < |x| ==> SixDecimals(x[i].proba)
    ensures ParseBox(Scan(Print(x))) == Ok(x)
  {
    hide Scan, Print, ReadProba, SixDecimals;
    PrintedReadsBack(x);
    forall i | 0 <= i < |x|
      ensures ReadNode(x[i]) == x[i]
    {
      SixDecimalsRead(x[i].proba);
    }
    assert ReadNodes(x) == x;
  }
}
