/** The net connectivity report (openfc_connectivity_report.py): the sheet a
    net belongs to, text normalisation, grouping the board's pads by net,
    the per-net sort, the grouping of nets by sheet and the truncation rule
    of the Markdown listing. */
module Connectivity {
  import opened Base
  import opened Ordering
  import Pcb

  // ---------------------------------------------------------------------
  // sheet_from_net

  /** Python's s.split("/"): the pieces between the slashes, always at least one. */
  function Split(s: string): (parts: seq<string>)
    ensures |parts| >= 1
  {
    if s == [] then [""]
    else if s[0] == '/' then [""] + Split(s[1..])
    else
      var rest := Split(s[1..]);
      [[s[0]] + rest[0]] + rest[1..]
  }

  /** "/".join(parts). */
  function Join(parts: seq<string>): string
    requires |parts| >= 1
  {
    if |parts| == 1 then parts[0] else parts[0] + "/" + Join(parts[1..])
  }

  /** split is undone by join, and no piece holds a slash. */
  lemma {:induction false} SplitJoin(s: string)
    ensures Join(Split(s)) == s
    ensures forall k | 0 <= k < |Split(s)| :: '/' !in Split(s)[k]
  {
    if s != [] {
      SplitJoin(s[1..]);
      var rest := Split(s[1..]);
      if s[0] == '/' {
        assert ([""] + rest)[1..] == rest;
        assert s == "/" + s[1..];
        forall k | 0 <= k < |Split(s)| ensures '/' !in Split(s)[k] {
          if k > 0 {
            assert Split(s)[k] == rest[k - 1];
          }
        }
      } else {
        var parts := [[s[0]] + rest[0]] + rest[1..];
        assert parts[1..] == rest[1..];
        if |rest| > 1 {
          assert Join(rest) == rest[0] + "/" + Join(rest[1..]);
        }
        assert s == [s[0]] + s[1..];
        forall k | 0 <= k < |parts| ensures '/' !in parts[k] {
          if k > 0 {
            assert parts[k] == rest[k];
          } else {
            assert '/' !in rest[0];
          }
        }
      }
    }
  }

  /** [p for p in parts if p]. */
  function NonEmpty(parts: seq<string>): seq<string>
  {
    if parts == [] then [] else (if parts[0] != "" then [parts[0]] else []) + NonEmpty(parts[1..])
  }

  /** sheet_from_net. */
  function SheetFromNet(net: string): string
  {
    if |net| > 0 && net[0] == '/' then
      var parts := NonEmpty(Split(net));
      if parts != [] then parts[0] else "GLOBAL"
    else
      "GLOBAL"
  }

  /** The first index at or after i that is not a slash (|s| if none). */
  function SkipSlashes(s: string, i: nat): (j: nat)
    requires i <= |s|
    ensures i <= j <= |s|
    ensures forall m | i <= m < j :: s[m] == '/'
    ensures j == |s| || s[j] != '/'
    decreases |s| - i
  {
    if i < |s| && s[i] == '/' then SkipSlashes(s, i + 1) else i
  }

  /** The first slash at or after i (|s| if none). */
  function NextSlash(s: string, i: nat): (j: nat)
    requires i <= |s|
    ensures i <= j <= |s|
    ensures forall m | i <= m < j :: s[m] != '/'
    ensures j == |s| || s[j] == '/'
    decreases |s| - i
  {
    if i < |s| && s[i] != '/' then NextSlash(s, i + 1) else i
  }

  lemma {:induction false} SplitHead(s: string, i: nat)
    requires i <= |s|
    ensures Split(s[i..])[0] == s[i..NextSlash(s, i)]
    decreases |s| - i
  {
    if i < |s| && s[i] != '/' {
      SplitHead(s, i + 1);
      assert s[i..][1..] == s[i + 1..];
      assert s[i..NextSlash(s, i)] == [s[i]] + s[i + 1..NextSlash(s, i + 1)];
    }
  }

  lemma {:induction false} FirstPart(s: string, i: nat)
    requires i <= |s|
    ensures var j := SkipSlashes(s, i); var parts := NonEmpty(Split(s[i..]));
      && (j == |s| <==> parts == [])
      && (j < |s| ==> parts[0] == s[j..NextSlash(s, j)])
    decreases |s| - i
  {
    if i < |s| {
      assert s[i..][1..] == s[i + 1..];
      if s[i] == '/' {
        FirstPart(s, i + 1);
        assert ([""] + Split(s[i + 1..]))[1..] == Split(s[i + 1..]);
      } else {
        SplitHead(s, i);
        assert s[i..NextSlash(s, i)] != "";
      }
    }
  }

  /** sheet_from_net: a name that does not start with a slash belongs to
      GLOBAL; otherwise the sheet is the first non-empty slash-separated
      segment, or GLOBAL when there is none. A sheet never holds a slash. */
  lemma SheetFromNetSpec(net: string)
    ensures !(|net| > 0 && net[0] == '/') ==> SheetFromNet(net) == "GLOBAL"
    ensures |net| > 0 && net[0] == '/' ==>
      var i := SkipSlashes(net, 0);
      SheetFromNet(net) == (if i == |net| then "GLOBAL" else net[i..NextSlash(net, i)])
    ensures '/' !in SheetFromNet(net)
  {
    if |net| > 0 && net[0] == '/' {
      assert net[0..] == net;
      FirstPart(net, 0);
      var i := SkipSlashes(net, 0);
      if i < |net| {
        NoSlashIn(net, i, NextSlash(net, i));
      }
    }
  }

  lemma NoSlashIn(s: string, i: nat, j: nat)
    requires i <= j <= |s|
    requires forall m | i <= m < j :: s[m] != '/'
    ensures '/' !in s[i..j]
  {
    forall m | 0 <= m < j - i ensures s[i..j][m] != '/' {
      assert s[i..j][m] == s[i + m];
    }
  }

  // ---------------------------------------------------------------------
  // norm

  /** s.replace("\n", " "). */
  function ReplaceNewlines(s: string): (r: string)
    ensures |r| == |s|
  {
    seq(|s|, k requires 0 <= k < |s| => if s[k] == '\n' then ' ' else s[k])
  }

  /** The first index at or after i that is not whitespace (|s| if none). */
  function StripStart(s: string, i: nat): (j: nat)
    requires i <= |s|
    ensures i <= j <= |s|
    ensures forall m | i <= m < j :: IsSpace(s[m])
    ensures j == |s| || !IsSpace(s[j])
    decreases |s| - i
  {
    if i < |s| && IsSpace(s[i]) then StripStart(s, i + 1) else i
  }

  /** The end of s[lo..j] once its trailing whitespace is dropped. */
  function StripEnd(s: string, lo: nat, j: nat): (k: nat)
    requires lo <= j <= |s|
    ensures lo <= k <= j
    ensures forall m | k <= m < j :: IsSpace(s[m])
    ensures k == lo || !IsSpace(s[k - 1])
    decreases j
  {
    if j > lo && IsSpace(s[j - 1]) then StripEnd(s, lo, j - 1) else j
  }

  /** s.strip(): s without its leading and trailing whitespace. */
  function Strip(s: string): (r: string)
    ensures r == "" || (!IsSpace(r[0]) && !IsSpace(r[|r| - 1]))
    ensures exists i, j | 0 <= i <= j <= |s| :: r == s[i..j] && AllSpace(s[..i]) && AllSpace(s[j..])
  {
    var i := StripStart(s, 0);
    var j := StripEnd(s, i, |s|);
    assert AllSpace(s[..i]) && AllSpace(s[j..]);
    s[i..j]
  }

  /** norm. */
  function Norm(s: string): (r: string)
    ensures '\n' !in r
    ensures r == "" || (!IsSpace(r[0]) && !IsSpace(r[|r| - 1]))
  {
    Strip(ReplaceNewlines(s))
  }

  lemma StripOfStripped(s: string)
    requires s == "" || (!IsSpace(s[0]) && !IsSpace(s[|s| - 1]))
    ensures Strip(s) == s
  {
    if s != "" {
      assert StripStart(s, 0) == 0;
      assert StripEnd(s, 0, |s|) == |s|;
    }
  }

  /** norm is idempotent. */
  lemma NormIdempotent(s: string)
    ensures Norm(Norm(s)) == Norm(s)
  {
    var t := Norm(s);
    assert ReplaceNewlines(t) == t;
    StripOfStripped(t);
  }

  // ---------------------------------------------------------------------
  // Grouping pads by net

  /** One node of a net: the footprint's reference and the normalised
      value, footprint id, pad number and pin function. */
  datatype Row = Row(ref: string, value: string, fpId: string, pad: string, pinfunction: string)

  function RowOf(fp: Pcb.Footprint, pad: Pcb.Pad): Row
  {
    Row(fp.ref, Norm(fp.value), Norm(fp.fpId), Norm(pad.number), Norm(pad.pinfunction))
  }

  /** The rows for those of pads that are on net. */
  function PadRows(fp: Pcb.Footprint, pads: seq<Pcb.Pad>, net: string): seq<Row>
  {
    if pads == [] then []
    else PadRows(fp, pads[..|pads| - 1], net) + (if pads[|pads| - 1].netName == net then [RowOf(fp, pads[|pads| - 1])] else [])
  }

  /** The nodes of net, footprints in order and pads in order. */
  function NodesOf(fps: seq<Pcb.Footprint>, net: string): seq<Row>
  {
    if fps == [] then [] else NodesOf(fps[..|fps| - 1], net) + PadRows(fps[|fps| - 1], fps[|fps| - 1].pads, net)
  }

  /** The net names of pads, first appearance first, added to names. */
  function AddNets(names: seq<string>, pads: seq<Pcb.Pad>): seq<string>
  {
    if pads == [] then names
    else
      var ns := AddNets(names, pads[..|pads| - 1]);
      var net := pads[|pads| - 1].netName;
      if net != "" && net !in ns then ns + [net] else ns
  }

  /** The keys of the grouping in insertion order: every non-empty net name,
      in order of first appearance. */
  function NetOrder(fps: seq<Pcb.Footprint>): seq<string>
  {
    if fps == [] then [] else AddNets(NetOrder(fps[..|fps| - 1]), fps[|fps| - 1].pads)
  }

  /** netNodes[net].append(row) on the defaultdict: a new key goes to the
      end of the key order. */
  method AddNode(netNodes0: map<string, seq<Row>>, order0: seq<string>, net: string, row: Row)
    returns (netNodes: map<string, seq<Row>>, order: seq<string>)
    requires forall n :: n in netNodes0 <==> n in order0
    ensures order == if net in order0 then order0 else order0 + [net]
    ensures netNodes == netNodes0[net := Get(netNodes0, net, []) + [row]]
    ensures forall n :: n in netNodes <==> n in order
  {
    netNodes, order := netNodes0, order0;
    if net !in netNodes {
      order := order + [net];
    }
    netNodes := netNodes[net := Get(netNodes, net, []) + [row]];
  }

  /** The grouping after the pads of one footprint, starting from m. */
  function GroupInto(m: map<string, seq<Row>>, fp: Pcb.Footprint, pads: seq<Pcb.Pad>): map<string, seq<Row>>
  {
    if pads == [] then m
    else
      var m' := GroupInto(m, fp, pads[..|pads| - 1]);
      var pad := pads[|pads| - 1];
      if pad.netName != "" then m'[pad.netName := Get(m', pad.netName, []) + [RowOf(fp, pad)]] else m'
  }

  /** The grouping of all the pads of the footprints. */
  function Grouping(fps: seq<Pcb.Footprint>): map<string, seq<Row>>
  {
    if fps == [] then map[] else GroupInto(Grouping(fps[..|fps| - 1]), fps[|fps| - 1], fps[|fps| - 1].pads)
  }

  /** The inner loop of the grouping: the pads of one footprint. */
  method GroupPads(netNodes0: map<string, seq<Row>>, order0: seq<string>, fp: Pcb.Footprint)
    returns (netNodes: map<string, seq<Row>>, order: seq<string>)
    requires forall n :: n in netNodes0 <==> n in order0
    ensures netNodes == GroupInto(netNodes0, fp, fp.pads)
    ensures order == AddNets(order0, fp.pads)
    ensures forall n :: n in netNodes <==> n in order
  {
    netNodes, order := netNodes0, order0;
    var pads := fp.pads;
    var b := 0;
    while b < |pads|
      invariant 0 <= b <= |pads|
      invariant netNodes == GroupInto(netNodes0, fp, pads[..b])
      invariant order == AddNets(order0, pads[..b])
      invariant forall n :: n in netNodes <==> n in order
    {
      GroupPadStep(netNodes0, order0, fp, pads, b);
      netNodes, order := AddPad(netNodes, order, fp, pads[b]);
      b := b + 1;
    }
    assert pads[..b] == pads;
  }

  /** The body of the inner loop: a pad on a named net adds its row. */
  method AddPad(netNodes0: map<string, seq<Row>>, order0: seq<string>, fp: Pcb.Footprint, pad: Pcb.Pad)
    returns (netNodes: map<string, seq<Row>>, order: seq<string>)
    requires forall n :: n in netNodes0 <==> n in order0
    ensures netNodes == if pad.netName != "" then netNodes0[pad.netName := Get(netNodes0, pad.netName, []) + [RowOf(fp, pad)]] else netNodes0
    ensures order == if pad.netName != "" && pad.netName !in order0 then order0 + [pad.netName] else order0
    ensures forall n :: n in netNodes <==> n in order
  {
    netNodes, order := netNodes0, order0;
    var net := pad.netName;
    if net != "" {
      var row := Row(fp.ref, Norm(fp.value), Norm(fp.fpId), Norm(pad.number), Norm(pad.pinfunction));
      netNodes, order := AddNode(netNodes, order, net, row);
    }
  }

  /** One more pad of the inner loop. */
  lemma GroupPadStep(m: map<string, seq<Row>>, order: seq<string>, fp: Pcb.Footprint, pads: seq<Pcb.Pad>, b: nat)
    requires b < |pads|
    ensures var pad, m', order' := pads[b], GroupInto(m, fp, pads[..b]), AddNets(order, pads[..b]);
      && GroupInto(m, fp, pads[..b + 1]) ==
        (if pad.netName != "" then m'[pad.netName := Get(m', pad.netName, []) + [RowOf(fp, pad)]] else m')
      && AddNets(order, pads[..b + 1]) ==
        (if pad.netName != "" && pad.netName !in order' then order' + [pad.netName] else order')
  {
    assert pads[..b + 1][..b] == pads[..b];
  }

  /** The grouping loop: pads with an empty net name are skipped, every
      other pad adds one node under its net name, keys in order of first
      appearance; a net is a key exactly when it has nodes. */
  method GroupByNet(fps: seq<Pcb.Footprint>) returns (netNodes: map<string, seq<Row>>, order: seq<string>)
    ensures order == NetOrder(fps)
    ensures forall n :: n in netNodes <==> n in order
    ensures forall n :: n in netNodes <==> n != "" && NodesOf(fps, n) != []
    ensures forall n | n in netNodes :: netNodes[n] == NodesOf(fps, n)
  {
    netNodes, order := map[], [];
    var a := 0;
    while a < |fps|
      invariant 0 <= a <= |fps|
      invariant netNodes == Grouping(fps[..a])
      invariant order == NetOrder(fps[..a])
      invariant forall n :: n in netNodes <==> n in order
    {
      assert fps[..a + 1][..a] == fps[..a];
      netNodes, order := GroupPads(netNodes, order, fps[a]);
      a := a + 1;
    }
    assert fps[..a] == fps;
    GroupingSpec(fps);
  }

  lemma GroupIntoSpec(m: map<string, seq<Row>>, fp: Pcb.Footprint, pads: seq<Pcb.Pad>)
    ensures forall n | n != "" :: Get(GroupInto(m, fp, pads), n, []) == Get(m, n, []) + PadRows(fp, pads, n)
    ensures forall n :: n in GroupInto(m, fp, pads) <==> n in m || (n != "" && PadRows(fp, pads, n) != [])
  {
    forall n {
      GroupIntoAt(m, fp, pads, n);
    }
  }

  /** The grouping after one footprint's pads, seen at one net name. */
  lemma {:induction false} GroupIntoAt(m: map<string, seq<Row>>, fp: Pcb.Footprint, pads: seq<Pcb.Pad>, n: string)
    ensures n != "" ==> Get(GroupInto(m, fp, pads), n, []) == Get(m, n, []) + PadRows(fp, pads, n)
    ensures n in GroupInto(m, fp, pads) <==> n in m || (n != "" && PadRows(fp, pads, n) != [])
  {
    if pads != [] {
      var init := pads[..|pads| - 1];
      var pad := pads[|pads| - 1];
      GroupIntoAt(m, fp, init, n);
      var x := if pad.netName == n then [RowOf(fp, pad)] else [];
      assert PadRows(fp, pads, n) == PadRows(fp, init, n) + x;
      if pad.netName != "" {
        AppendAt(GroupInto(m, fp, init), pad.netName, RowOf(fp, pad), n);
      }
      Assoc(Get(m, n, []), PadRows(fp, init, n), x);
    }
  }

  /** netNodes[key].append(v), seen at n. */
  lemma AppendAt<K, V>(m: map<K, seq<V>>, key: K, v: V, n: K)
    ensures var m' := m[key := Get(m, key, []) + [v]];
      && Get(m', n, []) == Get(m, n, []) + (if key == n then [v] else [])
      && (n in m' <==> n in m || n == key)
  {
    if key != n {
      assert Get(m, n, []) + [] == Get(m, n, []);
    }
  }

  /** The grouping holds, under each non-empty net name, exactly the nodes
      of that net in board order, and no other key. */
  lemma {:induction false} GroupingSpec(fps: seq<Pcb.Footprint>)
    ensures forall n :: n in Grouping(fps) <==> n != "" && NodesOf(fps, n) != []
    ensures forall n | n in Grouping(fps) :: Grouping(fps)[n] == NodesOf(fps, n)
  {
    if fps != [] {
      var init := fps[..|fps| - 1];
      var fp := fps[|fps| - 1];
      GroupingSpec(init);
      GroupIntoSpec(Grouping(init), fp, fp.pads);
      forall n | n != "" ensures Get(Grouping(fps), n, []) == NodesOf(fps, n) {
      }
    }
  }

  // ----- properties of the grouping

  /** Every pad of the footprints, footprints in order. */
  function AllPads(fps: seq<Pcb.Footprint>): seq<Pcb.Pad>
  {
    if fps == [] then [] else AllPads(fps[..|fps| - 1]) + fps[|fps| - 1].pads
  }

  lemma {:induction false} PadsOnAppend(a: seq<Pcb.Pad>, b: seq<Pcb.Pad>, n: string)
    ensures Pcb.PadsOn(a + b, n) == Pcb.PadsOn(a, n) + Pcb.PadsOn(b, n)
    decreases |b|
  {
    if b == [] {
      assert a + b == a;
    } else {
      assert (a + b)[..|a + b| - 1] == a + b[..|b| - 1];
      PadsOnAppend(a, b[..|b| - 1], n);
    }
  }

  lemma {:induction false} PadRowsCount(fp: Pcb.Footprint, pads: seq<Pcb.Pad>, n: string)
    ensures |PadRows(fp, pads, n)| == Pcb.PadsOn(pads, n)
    ensures forall r | r in PadRows(fp, pads, n) :: exists pad | pad in pads :: pad.netName == n && r == RowOf(fp, pad)
    ensures forall pad | pad in pads && pad.netName == n :: RowOf(fp, pad) in PadRows(fp, pads, n)
  {
    if pads != [] {
      var init := pads[..|pads| - 1];
      PadRowsCount(fp, init, n);
      assert pads == init + [pads[|pads| - 1]];
    }
  }

  /** Each net's nodes are one per pad on that net, over all footprints:
      as many as net_counts reports for it, every node comes from a pad on
      the net, and every pad on the net gives a node. */
  lemma {:induction false} NodesOfSpec(fps: seq<Pcb.Footprint>, n: string)
    ensures |NodesOf(fps, n)| == Pcb.NetPadCount(fps, n) == Pcb.PadsOn(AllPads(fps), n)
    ensures forall r | r in NodesOf(fps, n) ::
      exists fp, pad | fp in fps && pad in fp.pads :: pad.netName == n && r == RowOf(fp, pad)
    ensures forall fp, pad | fp in fps && pad in fp.pads && pad.netName == n :: RowOf(fp, pad) in NodesOf(fps, n)
  {
    if fps != [] {
      var init := fps[..|fps| - 1];
      var fp := fps[|fps| - 1];
      NodesOfSpec(init, n);
      PadRowsCount(fp, fp.pads, n);
      PadsOnAppend(AllPads(init), fp.pads, n);
      assert fps == init + [fp];
    }
  }

  predicate Distinct(xs: seq<string>)
  {
    forall i, j | 0 <= i < j < |xs| :: xs[i] != xs[j]
  }

  lemma {:induction false} AddNetsSpec(names: seq<string>, pads: seq<Pcb.Pad>)
    requires Distinct(names)
    ensures Distinct(AddNets(names, pads))
    ensures forall n :: n in AddNets(names, pads) <==> n in names || (n != "" && Pcb.PadsOn(pads, n) > 0)
  {
    if pads != [] {
      AddNetsSpec(names, pads[..|pads| - 1]);
    }
  }

  /** The grouping's keys, in insertion order, are distinct and are exactly
      the non-empty net names some pad is on. */
  lemma {:induction false} NetOrderSpec(fps: seq<Pcb.Footprint>)
    ensures Distinct(NetOrder(fps))
    ensures forall n :: n in NetOrder(fps) <==> n != "" && Pcb.NetPadCount(fps, n) > 0
  {
    if fps != [] {
      NetOrderSpec(fps[..|fps| - 1]);
      AddNetsSpec(NetOrder(fps[..|fps| - 1]), fps[|fps| - 1].pads);
    }
  }

  /** How many of the pads have a non-empty net name. */
  function ConnectedPads(pads: seq<Pcb.Pad>): nat
  {
    if pads == [] then 0 else ConnectedPads(pads[..|pads| - 1]) + (if pads[|pads| - 1].netName != "" then 1 else 0)
  }

  /** How many of the pads are on one of names. */
  function PadsOnAny(pads: seq<Pcb.Pad>, names: seq<string>): nat
  {
    if pads == [] then 0 else PadsOnAny(pads[..|pads| - 1], names) + (if pads[|pads| - 1].netName in names then 1 else 0)
  }

  /** The sum over names of the pads on each. */
  function SumPadsOn(pads: seq<Pcb.Pad>, names: seq<string>): nat
  {
    if names == [] then 0 else SumPadsOn(pads, names[..|names| - 1]) + Pcb.PadsOn(pads, names[|names| - 1])
  }

  function Hits(names: seq<string>, x: string): nat
  {
    if names == [] then 0 else Hits(names[..|names| - 1], x) + (if names[|names| - 1] == x then 1 else 0)
  }

  lemma {:induction false} HitsDistinct(names: seq<string>, x: string)
    requires Distinct(names)
    ensures Hits(names, x) == if x in names then 1 else 0
  {
    if names != [] {
      var init := names[..|names| - 1];
      HitsDistinct(init, x);
      if names[|names| - 1] == x {
        assert x !in init by {
          forall k | 0 <= k < |init| ensures init[k] != x {
            assert init[k] == names[k];
          }
        }
      }
    }
  }

  lemma {:induction false} SumPadsOnStep(pads: seq<Pcb.Pad>, p: Pcb.Pad, names: seq<string>)
    ensures SumPadsOn(pads + [p], names) == SumPadsOn(pads, names) + Hits(names, p.netName)
  {
    if names != [] {
      SumPadsOnStep(pads, p, names[..|names| - 1]);
      assert (pads + [p])[..|pads + [p]| - 1] == pads;
    }
  }

  lemma {:induction false} SumPadsOnAny(pads: seq<Pcb.Pad>, names: seq<string>)
    requires Distinct(names)
    ensures SumPadsOn(pads, names) == PadsOnAny(pads, names)
  {
    if pads == [] {
      SumPadsOnEmpty(pads, names);
    } else {
      var init := pads[..|pads| - 1];
      SumPadsOnAny(init, names);
      assert pads == init + [pads[|pads| - 1]];
      SumPadsOnStep(init, pads[|pads| - 1], names);
      HitsDistinct(names, pads[|pads| - 1].netName);
    }
  }

  lemma {:induction false} SumPadsOnEmpty(pads: seq<Pcb.Pad>, names: seq<string>)
    requires pads == []
    ensures SumPadsOn(pads, names) == 0
  {
    if names != [] {
      SumPadsOnEmpty(pads, names[..|names| - 1]);
    }
  }

  lemma {:induction false} PadsOnAnyConnected(pads: seq<Pcb.Pad>, names: seq<string>)
    requires forall k | 0 <= k < |pads| :: pads[k].netName in names <==> pads[k].netName != ""
    ensures PadsOnAny(pads, names) == ConnectedPads(pads)
  {
    if pads != [] {
      PadsOnAnyConnected(pads[..|pads| - 1], names);
    }
  }

  lemma {:induction false} PadsOnPositive(pads: seq<Pcb.Pad>, k: nat)
    requires k < |pads|
    ensures Pcb.PadsOn(pads, pads[k].netName) > 0
  {
    if k < |pads| - 1 {
      PadsOnPositive(pads[..|pads| - 1], k);
    }
  }

  /** The grouping's node lists, summed over its keys, count every pad with
      a non-empty net name once. */
  lemma TotalNodes(fps: seq<Pcb.Footprint>)
    ensures SumPadsOn(AllPads(fps), NetOrder(fps)) == ConnectedPads(AllPads(fps))
  {
    var pads := AllPads(fps);
    var names := NetOrder(fps);
    NetOrderSpec(fps);
    forall n ensures Pcb.NetPadCount(fps, n) == Pcb.PadsOn(pads, n) {
      NodesOfSpec(fps, n);
    }
    forall k | 0 <= k < |pads| ensures pads[k].netName in names <==> pads[k].netName != "" {
      PadsOnPositive(pads, k);
    }
    SumPadsOnAny(pads, names);
    PadsOnAnyConnected(pads, names);
  }

  // ---------------------------------------------------------------------
  // Sorting and grouping by sheet

  /** The sort key of a node: (ref, pad). */
  function RowKey(r: Row): seq<string>
  {
    [r.ref, r.pad]
  }

  /** The sort key of a net name: the name itself. */
  function NameKey(n: string): seq<string>
  {
    [n]
  }

  /** The names on sheet s, in order. */
  function SheetGroup(names: seq<string>, s: string): seq<string>
  {
    if names == [] then []
    else SheetGroup(names[..|names| - 1], s) + (if SheetFromNet(names[|names| - 1]) == s then [names[|names| - 1]] else [])
  }

  /** The sheets of names, in order of first appearance. */
  function SheetOrder(names: seq<string>): seq<string>
  {
    if names == [] then []
    else
      var ss := SheetOrder(names[..|names| - 1]);
      var s := SheetFromNet(names[|names| - 1]);
      if s in ss then ss else ss + [s]
  }

  /** by_sheet after the names. */
  function SheetMap(names: seq<string>): map<string, seq<string>>
  {
    if names == [] then map[]
    else
      var m := SheetMap(names[..|names| - 1]);
      var s := SheetFromNet(names[|names| - 1]);
      m[s := Get(m, s, []) + [names[|names| - 1]]]
  }

  /** The by_sheet loop over the sorted net names. */
  method BySheet(names: seq<string>) returns (bySheet: map<string, seq<string>>, sheets: seq<string>)
    ensures sheets == SheetOrder(names)
    ensures forall s :: s in bySheet <==> s in sheets
    ensures forall s | s in bySheet :: bySheet[s] == SheetGroup(names, s)
  {
    bySheet, sheets := map[], [];
    var k := 0;
    while k < |names|
      invariant 0 <= k <= |names|
      invariant bySheet == SheetMap(names[..k])
      invariant sheets == SheetOrder(names[..k])
      invariant forall s :: s in bySheet <==> s in sheets
    {
      assert names[..k + 1][..k] == names[..k];
      var net := names[k];
      var sheet := SheetFromNet(net);
      if sheet !in bySheet {
        sheets := sheets + [sheet];
      }
      bySheet := bySheet[sheet := Get(bySheet, sheet, []) + [net]];
      k := k + 1;
    }
    assert names[..k] == names;
    SheetMapSpec(names);
  }

  lemma {:induction false} SheetMapSpec(names: seq<string>)
    ensures forall s | s in SheetMap(names) :: SheetMap(names)[s] == SheetGroup(names, s)
    ensures forall s | s !in SheetMap(names) :: SheetGroup(names, s) == []
  {
    if names != [] {
      SheetMapSpec(names[..|names| - 1]);
    }
  }

  lemma {:induction false} SheetGroupMembers(names: seq<string>, s: string)
    ensures forall n :: n in SheetGroup(names, s) <==> n in names && SheetFromNet(n) == s
  {
    if names != [] {
      var init := names[..|names| - 1];
      SheetGroupMembers(init, s);
      assert names == init + [names[|names| - 1]];
    }
  }

  /** Each sheet's group holds exactly the names of that sheet, and is in
      sorted order when the names are. */
  lemma {:induction false} SheetGroupSpec(names: seq<string>, s: string)
    ensures forall n :: n in SheetGroup(names, s) <==> n in names && SheetFromNet(n) == s
    ensures SortedBy(names, NameKey) ==> SortedBy(SheetGroup(names, s), NameKey)
  {
    SheetGroupMembers(names, s);
    if names != [] && SortedBy(names, NameKey) {
      var init := names[..|names| - 1];
      var last := names[|names| - 1];
      assert SortedBy(init, NameKey);
      SheetGroupSpec(init, s);
      SheetGroupMembers(init, s);
      var g := SheetGroup(init, s);
      if SheetFromNet(last) == s {
        forall i, j | 0 <= i < j < |g + [last]| ensures !KeyLt(NameKey((g + [last])[j]), NameKey((g + [last])[i])) {
          if j == |g| {
            assert g[i] in init;
            var m :| 0 <= m < |init| && init[m] == g[i];
            assert names[m] == g[i];
          } else {
            assert (g + [last])[i] == g[i] && (g + [last])[j] == g[j];
          }
        }
      }
    }
  }

  // ---------------------------------------------------------------------
  // Truncation

  /** What the listing shows for one net: a summary with its count, or a
      heading with its count, the nodes shown and how many are left out. */
  datatype View = Summary(count: nat) | Listing(count: nat, shown: seq<Row>, more: int)

  /** Python's xs[:m] for any integer m: a negative m counts from the end. */
  function SliceTo(xs: seq<Row>, m: int): (r: seq<Row>)
    ensures |r| <= |xs| && r == xs[..|r|]
  {
    if m >= |xs| then xs
    else if m >= 0 then xs[..m]
    else if |xs| + m > 0 then xs[..|xs| + m]
    else []
  }

  /** The truncation rule for one net's sorted nodes. */
  function NetView(nodes: seq<Row>, maxNodes: int, expand: bool): View
  {
    var count := |nodes|;
    if count > maxNodes && !expand then Summary(count)
    else
      var shown := if count <= maxNodes then nodes else SliceTo(nodes, maxNodes);
      Listing(count, shown, count - |shown|)
  }

  /** A net over the limit that is not expanded gets only a summary with its
      count; otherwise the nodes shown are the first min(count, max_nodes)
      (all of them when they fit) and the remainder reported is what is left
      out, so an expanded net over the limit is still cut at max_nodes. */
  lemma NetViewSpec(nodes: seq<Row>, maxNodes: int, expand: bool)
    ensures NetView(nodes, maxNodes, expand).Summary? <==> |nodes| > maxNodes && !expand
    ensures NetView(nodes, maxNodes, expand).count == |nodes|
    ensures var v := NetView(nodes, maxNodes, expand);
      v.Listing? ==>
        && v.shown == nodes[..|v.shown|]
        && v.more == |nodes| - |v.shown| >= 0
        && (|nodes| <= maxNodes ==> v.shown == nodes)
        && (0 <= maxNodes < |nodes| ==> |v.shown| == maxNodes && v.more > 0)
        && (maxNodes < 0 ==> |v.shown| == if |nodes| + maxNodes > 0 then |nodes| + maxNodes else 0)
  {
  }

  // ---------------------------------------------------------------------
  // The sheet-by-sheet listing

  datatype NetEntry = NetEntry(net: string, view: View)

  datatype SheetSection = SheetSection(sheet: string, nets: seq<NetEntry>)

  /** The entries of the nets of one sheet. */
  function NetEntries(netNodes: map<string, seq<Row>>, group: seq<string>, maxNodes: int, expand: string -> bool): seq<NetEntry>
  {
    if group == [] then []
    else
      var net := group[|group| - 1];
      NetEntries(netNodes, group[..|group| - 1], maxNodes, expand)
        + [NetEntry(net, NetView(SortBy(Get(netNodes, net, []), RowKey), maxNodes, expand(net)))]
  }

  /** The loop over the nets of one sheet. */
  method ListSheet(netNodes: map<string, seq<Row>>, group: seq<string>, maxNodes: int, expand: string -> bool)
    returns (entries: seq<NetEntry>)
    ensures entries == NetEntries(netNodes, group, maxNodes, expand)
  {
    entries := [];
    var j := 0;
    while j < |group|
      invariant 0 <= j <= |group|
      invariant entries == NetEntries(netNodes, group[..j], maxNodes, expand)
    {
      assert group[..j + 1][..j] == group[..j];
      var net := group[j];
      var nodes := SortBy(Get(netNodes, net, []), RowKey);
      entries := entries + [NetEntry(net, NetView(nodes, maxNodes, expand(net)))];
      j := j + 1;
    }
    assert group[..j] == group;
  }

  /** The sections of the given sheets. */
  function Sections(netNodes: map<string, seq<Row>>, names: seq<string>, sheets: seq<string>, maxNodes: int, expand: string -> bool)
    : (r: seq<SheetSection>)
    ensures |r| == |sheets|
    ensures forall k | 0 <= k < |sheets| ::
      r[k] == SheetSection(sheets[k], NetEntries(netNodes, SheetGroup(names, sheets[k]), maxNodes, expand))
  {
    if sheets == [] then []
    else
      var sheet := sheets[|sheets| - 1];
      Sections(netNodes, names, sheets[..|sheets| - 1], maxNodes, expand)
        + [SheetSection(sheet, NetEntries(netNodes, SheetGroup(names, sheet), maxNodes, expand))]
  }

  /** The Markdown listing's structure: the sheets in sorted order, and under
      each the nets of that sheet in sorted order, each with its sorted nodes
      cut by the truncation rule; expand says which nets the expand patterns
      match. */
  method SheetListing(netNodes: map<string, seq<Row>>, order: seq<string>, maxNodes: int, expand: string -> bool)
    returns (sections: seq<SheetSection>)
    ensures var names := SortBy(order, NameKey);
      sections == Sections(netNodes, names, SortBy(SheetOrder(names), NameKey), maxNodes, expand)
  {
    var names := SortBy(order, NameKey);
    var bySheet, sheetOrder := BySheet(names);
    var sheets := SortBy(sheetOrder, NameKey);
    SortByMembers(sheetOrder, NameKey);
    sections := ListSections(netNodes, names, bySheet, sheets, maxNodes, expand);
  }

  /** The loop over the sorted sheets, each listed from its by_sheet group. */
  method ListSections(netNodes: map<string, seq<Row>>, names: seq<string>, bySheet: map<string, seq<string>>,
                      sheets: seq<string>, maxNodes: int, expand: string -> bool)
    returns (sections: seq<SheetSection>)
    requires forall s | s in sheets :: s in bySheet && bySheet[s] == SheetGroup(names, s)
    ensures sections == Sections(netNodes, names, sheets, maxNodes, expand)
  {
    sections := [];
    var i := 0;
    while i < |sheets|
      invariant 0 <= i <= |sheets|
      invariant sections == Sections(netNodes, names, sheets[..i], maxNodes, expand)
    {
      var sheet := sheets[i];
      var entries := ListSheet(netNodes, bySheet[sheet], maxNodes, expand);
      SectionsStep(netNodes, names, sheets, i, maxNodes, expand);
      sections := sections + [SheetSection(sheet, entries)];
      i := i + 1;
    }
    assert sheets[..i] == sheets;
  }

  lemma SectionsStep(netNodes: map<string, seq<Row>>, names: seq<string>, sheets: seq<string>, i: nat,
                     maxNodes: int, expand: string -> bool)
    requires i < |sheets|
    ensures Sections(netNodes, names, sheets[..i + 1], maxNodes, expand) ==
      Sections(netNodes, names, sheets[..i], maxNodes, expand)
        + [SheetSection(sheets[i], NetEntries(netNodes, SheetGroup(names, sheets[i]), maxNodes, expand))]
  {
    assert sheets[..i + 1][..i] == sheets[..i];
  }

  lemma {:induction false} SheetOrderSpec(names: seq<string>)
    ensures Distinct(SheetOrder(names))
    ensures forall s :: s in SheetOrder(names) <==> exists n | n in names :: SheetFromNet(n) == s
  {
    if names != [] {
      var init := names[..|names| - 1];
      SheetOrderSpec(init);
      assert names == init + [names[|names| - 1]];
    }
  }

  /** The listing: sheets are distinct and sorted; a net of the grouping is
      listed under its own sheet and under no other; each sheet's nets are
      sorted. */
  lemma ListingSpec(order: seq<string>, n: string, s: string)
    ensures var names := SortBy(order, NameKey);
      var sheets := SortBy(SheetOrder(names), NameKey);
      && SortedBy(sheets, NameKey)
      && Distinct(sheets)
      && (n in order ==> SheetFromNet(n) in sheets)
      && (n in SheetGroup(names, s) <==> n in order && SheetFromNet(n) == s)
      && SortedBy(SheetGroup(names, s), NameKey)
  {
    var names := SortBy(order, NameKey);
    var sheets := SortBy(SheetOrder(names), NameKey);
    SortBySpec(order, NameKey);
    SortByMembers(order, NameKey);
    SheetOrderSpec(names);
    SortBySpec(SheetOrder(names), NameKey);
    SortByMembers(SheetOrder(names), NameKey);
    SheetGroupSpec(names, s);
    assert Distinct(sheets) by {
      forall i, j | 0 <= i < j < |sheets| ensures sheets[i] != sheets[j] {
        if sheets[i] == sheets[j] {
          DistinctCount(SheetOrder(names), sheets[i]);
          MultisetTwice(sheets, i, j);
        }
      }
    }
  }

  lemma {:induction false} DistinctCount(xs: seq<string>, x: string)
    requires Distinct(xs)
    ensures multiset(xs)[x] <= 1
  {
    if xs != [] {
      var init := xs[..|xs| - 1];
      DistinctCount(init, x);
      assert xs == init + [xs[|xs| - 1]];
      if xs[|xs| - 1] == x {
        assert x !in init by {
          forall k | 0 <= k < |init| ensures init[k] != x {
            assert init[k] == xs[k];
          }
        }
      }
    }
  }

  lemma MultisetTwice(xs: seq<string>, i: nat, j: nat)
    requires i < j < |xs| && xs[i] == xs[j]
    ensures multiset(xs)[xs[i]] >= 2
  {
    assert xs == xs[..i] + [xs[i]] + xs[i + 1..j] + [xs[j]] + xs[j + 1..];
  }
}
