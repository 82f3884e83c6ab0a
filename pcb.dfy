/** The KiCad board extractor (openfc_pcb_extract.py): the walk over a parsed
    (kicad_pcb ...) tree that builds the net id table and the footprint
    records with their pads, the IC reference test, and the per-net pad
    count. */
module Pcb {
  import opened Base
  import opened Parser
  import Netlist

  /** A pad: its number, the net of its inline (net id name) record (name ""
      and id None when it has none), its pin function and pin type. */
  datatype Pad = Pad(number: string, netName: string, netId: Option<string>, pinfunction: string, pintype: string)

  datatype Footprint = Footprint(fpId: string, ref: string, value: string, properties: map<string, string>, pads: seq<Pad>)

  /** What parse_board returns: the emitted footprints and the net id table. */
  datatype Board = Board(footprints: seq<Footprint>, netsById: map<string, string>)

  /** Python's xs[k:]: empty when k is past the end. */
  function Drop(xs: seq<Node>, k: nat): seq<Node>
  {
    if k <= |xs| then xs[k..] else []
  }

  /** `x if isinstance(x, str) else ""` on the child at index k, "" when the
      list is too short. */
  function TextAt(n: Node, k: nat): string
    requires n.List?
  {
    if k < |n.items| && n.items[k].Atom? then n.items[k].s else ""
  }

  // ---------------------------------------------------------------------
  // Helpers

  /** _kv_str: the first two children of a list when both are atoms. */
  function KvStr(n: Node): (r: Option<(string, string)>)
    ensures r.Some? <==> n.List? && |n.items| >= 2 && n.items[0].Atom? && n.items[1].Atom?
    ensures r.Some? ==> n.items[..2] == [Atom(r.value.0), Atom(r.value.1)]
  {
    if n.List? && |n.items| >= 2 && n.items[0].Atom? && n.items[1].Atom? then
      Some((n.items[0].s, n.items[1].s))
    else
      None
  }

  /** _kv_str accepts every pair _kv accepts, with the same result, and also
      longer lists. */
  lemma KvStrExtendsKv(n: Node, rest: seq<Node>, a: string, b: string)
    ensures Netlist.Kv(n).Some? ==> KvStr(n) == Netlist.Kv(n)
    ensures KvStr(List([Atom(a), Atom(b)] + rest)) == Some((a, b))
    ensures rest != [] ==> Netlist.Kv(List([Atom(a), Atom(b)] + rest)).None?
  {
  }

  /** _extract_property: (property name value ...) with a non-empty atom
      name; a value that is not an atom reads as "". */
  function ExtractProperty(n: Node): (r: Option<(string, string)>)
    ensures r.Some? <==> n.List? && |n.items| >= 3 && n.items[0] == Atom("property") && n.items[1].Atom? && n.items[1].s != ""
    ensures r.Some? ==> r.value.0 == n.items[1].s && r.value.0 != ""
    ensures r.Some? ==> r.value.1 == (if n.items[2].Atom? then n.items[2].s else "")
  {
    if !(n.List? && |n.items| >= 3 && n.items[0] == Atom("property")) then None
    else
      var name := TextAt(n, 1);
      var val := TextAt(n, 2);
      if name != "" then Some((name, val)) else None
  }

  /** A (net id name) record with atom id and name, both at top level and
      inside a pad. */
  function NetRecord(n: Node): Option<(string, string)>
  {
    if HeadIs(n, "net") && |n.items| >= 3 && n.items[1].Atom? && n.items[2].Atom? then
      Some((n.items[1].s, n.items[2].s))
    else
      None
  }

  /** A (tag text ...) record with an atom text: (pinfunction ..), (pintype ..). */
  function TagText(n: Node, tag: string): Option<string>
  {
    if HeadIs(n, tag) && |n.items| >= 2 && n.items[1].Atom? then Some(n.items[1].s) else None
  }

  // ---------------------------------------------------------------------
  // Specification of the walk

  /** The effect of one child of a (pad ...) record. */
  function PadStep(p: Pad, psub: Node): Pad
  {
    if HeadIs(psub, "net") then
      var net := NetRecord(psub);
      if net.Some? then p.(netId := Some(net.value.0), netName := net.value.1) else p
    else if TagText(psub, "pinfunction").Some? then p.(pinfunction := TagText(psub, "pinfunction").value)
    else if TagText(psub, "pintype").Some? then p.(pintype := TagText(psub, "pintype").value)
    else p
  }

  function PadFold(p: Pad, psubs: seq<Node>): Pad
  {
    if psubs == [] then p else PadStep(PadFold(p, psubs[..|psubs| - 1]), psubs[|psubs| - 1])
  }

  /** The pad a (pad number ...) record describes. */
  function PadOf(sub: Node): Pad
    requires sub.List?
  {
    PadFold(Pad(TextAt(sub, 1), "", None, "", ""), Drop(sub.items, 2))
  }

  /** The effect of one child of a (footprint ...) record. */
  function FootprintStep(fp: Footprint, sub: Node): Footprint
  {
    var prop := ExtractProperty(sub);
    if prop.Some? then
      var (k, v) := prop.value;
      fp.(properties := fp.properties[k := v],
          ref := if k == "Reference" then v else fp.ref,
          value := if k == "Value" then v else fp.value)
    else if HeadIs(sub, "pad") then fp.(pads := fp.pads + [PadOf(sub)])
    else fp
  }

  function FootprintFold(fp: Footprint, subs: seq<Node>): Footprint
  {
    if subs == [] then fp else FootprintStep(FootprintFold(fp, subs[..|subs| - 1]), subs[|subs| - 1])
  }

  /** The footprint a (footprint id ...) record describes, emitted or not. */
  function FootprintOf(item: Node): Footprint
    requires item.List?
  {
    FootprintFold(Footprint(TextAt(item, 1), "", "", map[], []), Drop(item.items, 2))
  }

  /** The net id table after the top-level children items. */
  function NetTable(items: seq<Node>): map<string, string>
  {
    if items == [] then map[]
    else
      var m := NetTable(items[..|items| - 1]);
      var net := NetRecord(items[|items| - 1]);
      if net.Some? then m[net.value.0 := net.value.1] else m
  }

  /** A top-level footprint record that parse_board emits. */
  predicate Emitted(item: Node)
  {
    HeadIs(item, "footprint") && FootprintOf(item).ref != ""
  }

  /** The footprints emitted for the top-level children items. */
  function Footprints(items: seq<Node>): seq<Footprint>
  {
    if items == [] then []
    else
      var fps := Footprints(items[..|items| - 1]);
      var item := items[|items| - 1];
      if Emitted(item) then fps + [FootprintOf(item)] else fps
  }

  // ---------------------------------------------------------------------
  // The walk

  /** The loop over the children of one (pad ...) record. */
  method ReadPad(sub: Node) returns (pad: Pad)
    requires HeadIs(sub, "pad")
    ensures pad == PadOf(sub)
  {
    var padNumber := if |sub.items| > 1 && sub.items[1].Atom? then sub.items[1].s else "";
    pad := Pad(padNumber, "", None, "", "");
    var psubs := Drop(sub.items, 2);
    var q := 0;
    while q < |psubs|
      invariant 0 <= q <= |psubs|
      invariant pad == PadFold(Pad(padNumber, "", None, "", ""), psubs[..q])
    {
      assert psubs[..q + 1][..q] == psubs[..q];
      var psub := psubs[q];
      if psub.List? && |psub.items| > 0 {
        var head := psub.items[0];
        if head == Atom("net") {
          if |psub.items| >= 3 && psub.items[1].Atom? && psub.items[2].Atom? {
            pad := pad.(netId := Some(psub.items[1].s), netName := psub.items[2].s);
          }
        } else if head == Atom("pinfunction") && |psub.items| >= 2 && psub.items[1].Atom? {
          pad := pad.(pinfunction := psub.items[1].s);
        } else if head == Atom("pintype") && |psub.items| >= 2 && psub.items[1].Atom? {
          pad := pad.(pintype := psub.items[1].s);
        }
      }
      q := q + 1;
    }
    assert psubs[..q] == psubs;
  }

  /** The loop over the children of one (footprint ...) record. */
  method ReadFootprint(item: Node) returns (fp: Footprint)
    requires HeadIs(item, "footprint")
    ensures fp == FootprintOf(item)
  {
    var fpId := if |item.items| > 1 && item.items[1].Atom? then item.items[1].s else "";
    var props: map<string, string> := map[];
    var ref, value := "", "";
    var pads: seq<Pad> := [];
    var subs := Drop(item.items, 2);
    var m := 0;
    while m < |subs|
      invariant 0 <= m <= |subs|
      invariant Footprint(fpId, ref, value, props, pads) == FootprintFold(Footprint(fpId, "", "", map[], []), subs[..m])
    {
      assert subs[..m + 1][..m] == subs[..m];
      var sub := subs[m];
      var prop := ExtractProperty(sub);
      if prop.Some? {
        var (k, v) := prop.value;
        props := props[k := v];
        if k == "Reference" {
          ref := v;
        } else if k == "Value" {
          value := v;
        }
      } else if sub.List? && |sub.items| > 0 && sub.items[0] == Atom("pad") {
        var pad := ReadPad(sub);
        pads := pads + [pad];
      }
      m := m + 1;
    }
    assert subs[..m] == subs;
    fp := Footprint(fpId, ref, value, props, pads);
  }

  /** parse_board, from the parsed root. */
  method ParseBoard(root: Node) returns (r: Result<Board>)
    ensures r.Err? <==> !HeadIs(root, "kicad_pcb")
    ensures r.Err? ==> r.error == InvalidRoot("kicad_pcb")
    ensures r.Ok? ==> r.value == Board(Footprints(root.items[1..]), NetTable(root.items[1..]))
  {
    if !(root.List? && |root.items| > 0 && root.items[0] == Atom("kicad_pcb")) {
      return Err(InvalidRoot("kicad_pcb"));
    }
    var netsById: map<string, string> := map[];
    var footprints: seq<Footprint> := [];
    var items := root.items[1..];
    var k := 0;
    while k < |items|
      invariant 0 <= k <= |items|
      invariant netsById == NetTable(items[..k])
      invariant footprints == Footprints(items[..k])
    {
      assert items[..k + 1][..k] == items[..k];
      var item := items[k];
      if item.List? && |item.items| > 0 {
        if item.items[0] == Atom("net") {
          if |item.items| >= 3 && item.items[1].Atom? && item.items[2].Atom? {
            netsById := netsById[item.items[1].s := item.items[2].s];
          }
        } else if item.items[0] == Atom("footprint") {
          var fp := ReadFootprint(item);
          if fp.ref != "" {
            footprints := footprints + [fp];
          }
        }
      }
      k := k + 1;
    }
    assert items[..k] == items;
    return Ok(Board(footprints, netsById));
  }

  // ---------------------------------------------------------------------
  // Properties of the walk

  /** The name of the last valid (net id name) record with this id. */
  function LastNetName(items: seq<Node>, id: string): Option<string>
  {
    if items == [] then None
    else
      var net := NetRecord(items[|items| - 1]);
      if net.Some? && net.value.0 == id then Some(net.value.1) else LastNetName(items[..|items| - 1], id)
  }

  /** The net id table: an id is present exactly when a valid top-level net
      record carries it, and a later record with the same id overwrites. */
  lemma {:induction false} NetTableLastWins(items: seq<Node>, id: string)
    ensures id in NetTable(items) <==> LastNetName(items, id).Some?
    ensures id in NetTable(items) ==> NetTable(items)[id] == LastNetName(items, id).value
  {
    if items != [] {
      NetTableLastWins(items[..|items| - 1], id);
    }
  }

  /** The last valid inline (net id name) record among a pad's children. */
  function LastNet(psubs: seq<Node>): Option<(string, string)>
  {
    if psubs == [] then None
    else if NetRecord(psubs[|psubs| - 1]).Some? then NetRecord(psubs[|psubs| - 1])
    else LastNet(psubs[..|psubs| - 1])
  }

  /** The text of the last (tag text) record among a pad's children. */
  function LastTagText(psubs: seq<Node>, tag: string): Option<string>
  {
    if psubs == [] then None
    else if TagText(psubs[|psubs| - 1], tag).Some? then TagText(psubs[|psubs| - 1], tag)
    else LastTagText(psubs[..|psubs| - 1], tag)
  }

  lemma {:induction false} PadFoldLastWins(p: Pad, psubs: seq<Node>)
    ensures PadFold(p, psubs).number == p.number
    ensures LastNet(psubs).None? ==> PadFold(p, psubs).netId == p.netId && PadFold(p, psubs).netName == p.netName
    ensures LastNet(psubs).Some? ==>
      PadFold(p, psubs).netId == Some(LastNet(psubs).value.0) && PadFold(p, psubs).netName == LastNet(psubs).value.1
    ensures PadFold(p, psubs).pinfunction == LastTagText(psubs, "pinfunction").GetOr(p.pinfunction)
    ensures PadFold(p, psubs).pintype == LastTagText(psubs, "pintype").GetOr(p.pintype)
  {
    if psubs != [] {
      PadFoldLastWins(p, psubs[..|psubs| - 1]);
    }
  }

  /** A pad's record: its number is the atom after "pad" ("" when missing or
      not an atom); its net comes from its own last inline net record only
      (name "" and id None without one); pin function and pin type come from
      the last records carrying them. */
  lemma PadFields(sub: Node)
    requires sub.List?
    ensures PadOf(sub).number == (if |sub.items| > 1 && sub.items[1].Atom? then sub.items[1].s else "")
    ensures var net := LastNet(Drop(sub.items, 2));
      && (net.None? ==> PadOf(sub).netName == "" && PadOf(sub).netId == None)
      && (net.Some? ==> PadOf(sub).netId == Some(net.value.0) && PadOf(sub).netName == net.value.1)
    ensures PadOf(sub).pinfunction == LastTagText(Drop(sub.items, 2), "pinfunction").GetOr("")
    ensures PadOf(sub).pintype == LastTagText(Drop(sub.items, 2), "pintype").GetOr("")
  {
    PadFoldLastWins(Pad(TextAt(sub, 1), "", None, "", ""), Drop(sub.items, 2));
  }

  /** The invariant of a footprint record: no property has an empty name, and
      ref and value mirror the Reference and Value properties. */
  predicate FootprintConsistent(fp: Footprint)
  {
    && "" !in fp.properties
    && fp.ref == Get(fp.properties, "Reference", "")
    && fp.value == Get(fp.properties, "Value", "")
  }

  /** The value of the last extractable property with this name. */
  function LastProperty(subs: seq<Node>, name: string): Option<string>
  {
    if subs == [] then None
    else
      var prop := ExtractProperty(subs[|subs| - 1]);
      if prop.Some? && prop.value.0 == name then Some(prop.value.1) else LastProperty(subs[..|subs| - 1], name)
  }

  /** The pad children of a footprint, in order. */
  function PadChildren(subs: seq<Node>): (ps: seq<Node>)
    ensures forall k | 0 <= k < |ps| :: HeadIs(ps[k], "pad")
  {
    if subs == [] then []
    else PadChildren(subs[..|subs| - 1]) + (if HeadIs(subs[|subs| - 1], "pad") then [subs[|subs| - 1]] else [])
  }

  lemma {:induction false} FootprintFoldProperties(fp: Footprint, subs: seq<Node>, name: string)
    requires FootprintConsistent(fp)
    ensures FootprintConsistent(FootprintFold(fp, subs))
    ensures FootprintFold(fp, subs).fpId == fp.fpId
    ensures name != "" ==>
      Get(FootprintFold(fp, subs).properties, name, "") == LastProperty(subs, name).GetOr(Get(fp.properties, name, ""))
  {
    if subs != [] {
      FootprintFoldProperties(fp, subs[..|subs| - 1], name);
    }
  }

  lemma {:induction false} FootprintFoldPads(fp: Footprint, subs: seq<Node>)
    ensures var pads := FootprintFold(fp, subs).pads;
      && |pads| == |fp.pads| + |PadChildren(subs)|
      && pads[..|fp.pads|] == fp.pads
      && forall k | 0 <= k < |PadChildren(subs)| :: pads[|fp.pads| + k] == PadOf(PadChildren(subs)[k])
  {
    if subs != [] {
      var init := subs[..|subs| - 1];
      FootprintFoldPads(fp, init);
      var fp' := FootprintFold(fp, init);
      var sub := subs[|subs| - 1];
      if HeadIs(sub, "pad") {
        assert ExtractProperty(sub).None?;
        assert PadChildren(subs) == PadChildren(init) + [sub];
      }
    }
  }

  /** A footprint record: each property name maps to the value of its last
      property record, ref and value are its Reference and Value properties
      (so it is emitted exactly when its last Reference is non-empty), and it
      has one pad per pad child, in order. */
  lemma FootprintOfSpec(item: Node, name: string)
    requires item.List?
    ensures FootprintConsistent(FootprintOf(item))
    ensures FootprintOf(item).fpId == TextAt(item, 1)
    ensures FootprintOf(item).ref == LastProperty(Drop(item.items, 2), "Reference").GetOr("")
    ensures name != "" ==> Get(FootprintOf(item).properties, name, "") == LastProperty(Drop(item.items, 2), name).GetOr("")
    ensures var ps := PadChildren(Drop(item.items, 2));
      && |FootprintOf(item).pads| == |ps|
      && forall k | 0 <= k < |ps| :: FootprintOf(item).pads[k] == PadOf(ps[k])
  {
    var fp0 := Footprint(TextAt(item, 1), "", "", map[], []);
    FootprintFoldProperties(fp0, Drop(item.items, 2), name);
    FootprintFoldProperties(fp0, Drop(item.items, 2), "Reference");
    FootprintFoldPads(fp0, Drop(item.items, 2));
  }

  /** Emitted footprints appear in document order: the walk over two
      stretches of the board is the walk over the first followed by the walk
      over the second. Every emitted footprint has a non-empty ref and is
      consistent. */
  lemma {:induction false} FootprintsInOrder(xs: seq<Node>, ys: seq<Node>)
    ensures Footprints(xs + ys) == Footprints(xs) + Footprints(ys)
    decreases |ys|
  {
    if ys == [] {
      assert xs + ys == xs;
    } else {
      assert (xs + ys)[..|xs + ys| - 1] == xs + ys[..|ys| - 1];
      FootprintsInOrder(xs, ys[..|ys| - 1]);
    }
  }

  lemma {:induction false} FootprintsEmitted(items: seq<Node>)
    ensures forall fp | fp in Footprints(items) :: fp.ref != "" && FootprintConsistent(fp)
    ensures |Footprints(items)| <= |items|
  {
    if items != [] {
      FootprintsEmitted(items[..|items| - 1]);
      var item := items[|items| - 1];
      if Emitted(item) {
        FootprintOfSpec(item, "Reference");
      }
    }
  }

  // ---------------------------------------------------------------------
  // is_ic_ref

  /** Where the run of digits starting at j ends. */
  function DigitRunEnd(s: string, j: nat): (k: nat)
    requires j <= |s|
    ensures j <= k <= |s|
    ensures forall m | j <= m < k :: IsDigit(s[m])
    ensures k == |s| || !IsDigit(s[k])
    decreases |s| - j
  {
    if j < |s| && IsDigit(s[j]) then DigitRunEnd(s, j + 1) else j
  }

  /** is_ic_ref, the match of ^U\d+$ at the start of ref: "U", a greedy run of
      at least one digit, then the end of the string or a final newline (the
      regex anchor $ also matches just before a trailing "\n"). */
  predicate IsIcRef(ref: string)
  {
    |ref| >= 2 && ref[0] == 'U' &&
    var k := DigitRunEnd(ref, 1);
    k >= 2 && (k == |ref| || (k == |ref| - 1 && ref[k] == '\n'))
  }

  /** is_ic_ref accepts exactly what is_ic accepts, plus those strings
      followed by one newline; on refs without a newline they agree. */
  lemma IsIcRefIff(ref: string)
    ensures IsIcRef(ref) <==>
      Netlist.IsIc(ref) || (|ref| > 0 && ref[|ref| - 1] == '\n' && Netlist.IsIc(ref[..|ref| - 1]))
    ensures '\n' !in ref ==> (IsIcRef(ref) <==> Netlist.IsIc(ref))
  {
    if |ref| >= 2 && ref[0] == 'U' {
      var k := DigitRunEnd(ref, 1);
      if Netlist.IsIc(ref) {
        var t := ref[1..];
        assert forall m | 0 <= m < |t| :: t[m] == ref[m + 1] && IsDigit(t[m]);
        assert k == |ref|;
      }
      if |ref| > 0 && ref[|ref| - 1] == '\n' && Netlist.IsIc(ref[..|ref| - 1]) {
        var p := ref[..|ref| - 1];
        var t := p[1..];
        assert forall m | 0 <= m < |t| :: t[m] == ref[m + 1] && IsDigit(t[m]);
        assert k == |ref| - 1;
      }
      if k == |ref| {
        assert forall m | 0 <= m < |ref[1..]| :: ref[1..][m] == ref[m + 1];
      } else if k == |ref| - 1 && ref[k] == '\n' && k >= 2 {
        var p := ref[..|ref| - 1];
        assert forall m | 0 <= m < |p[1..]| :: p[1..][m] == ref[m + 1];
      }
    } else if |ref| > 0 && ref[|ref| - 1] == '\n' {
      assert !Netlist.IsIc(ref[..|ref| - 1]) by {
        if |ref| >= 2 {
          assert ref[..|ref| - 1][0] == ref[0];
        }
      }
    }
  }

  // ---------------------------------------------------------------------
  // net_counts

  /** How many of the pads are on net n. */
  function PadsOn(pads: seq<Pad>, n: string): nat
  {
    if pads == [] then 0 else PadsOn(pads[..|pads| - 1], n) + (if pads[|pads| - 1].netName == n then 1 else 0)
  }

  /** How many pads of all the footprints are on net n. */
  function NetPadCount(fps: seq<Footprint>, n: string): nat
  {
    if fps == [] then 0 else NetPadCount(fps[..|fps| - 1], n) + PadsOn(fps[|fps| - 1].pads, n)
  }

  /** The inner loop of net_counts: the pads of one footprint. */
  method CountPads(counts0: map<string, int>, pads: seq<Pad>) returns (counts: map<string, int>)
    requires "" !in counts0
    ensures forall n :: n in counts <==> n in counts0 || (n != "" && PadsOn(pads, n) > 0)
    ensures forall n | n in counts :: counts[n] == Get(counts0, n, 0) + PadsOn(pads, n)
  {
    counts := counts0;
    var b := 0;
    while b < |pads|
      invariant 0 <= b <= |pads|
      invariant forall n :: n in counts <==> n in counts0 || (n != "" && PadsOn(pads[..b], n) > 0)
      invariant forall n | n in counts :: counts[n] == Get(counts0, n, 0) + PadsOn(pads[..b], n)
    {
      assert pads[..b + 1][..b] == pads[..b];
      var pad := pads[b];
      if pad.netName != "" {
        counts := counts[pad.netName := Get(counts, pad.netName, 0) + 1];
      }
      b := b + 1;
    }
    assert pads[..b] == pads;
  }

  /** The net_counts loop: each named net maps to the number of pads on it,
      over all footprints; pads with an empty net name are not counted. */
  method NetCounts(fps: seq<Footprint>) returns (counts: map<string, int>)
    ensures forall n :: n in counts <==> n != "" && NetPadCount(fps, n) > 0
    ensures forall n | n in counts :: counts[n] == NetPadCount(fps, n)
  {
    counts := map[];
    var a := 0;
    while a < |fps|
      invariant 0 <= a <= |fps|
      invariant forall n :: n in counts <==> n != "" && NetPadCount(fps[..a], n) > 0
      invariant forall n | n in counts :: counts[n] == NetPadCount(fps[..a], n)
    {
      assert fps[..a + 1][..a] == fps[..a];
      counts := CountPads(counts, fps[a].pads);
      a := a + 1;
    }
    assert fps[..a] == fps;
  }
}
