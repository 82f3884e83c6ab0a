/** The KiCad netlist extractor: section lookup in an (export ...) document,
    the component registry, the net list, and the pass that cross-links each
    component pin to its net. */
module Netlist {
  import opened Base
  import opened Parser

  // ---------------------------------------------------------------------
  // Shapes of tree nodes

  /** _kv: a two-element list of two atoms, read as a (key, value) pair. */
  function Kv(n: Node): (r: Option<(string, string)>)
    ensures r.Some? ==> n == List([Atom(r.value.0), Atom(r.value.1)])
    ensures r.None? ==> !(n.List? && |n.items| == 2 && n.items[0].Atom? && n.items[1].Atom?)
  {
    if n.List? && |n.items| == 2 && n.items[0].Atom? && n.items[1].Atom? then
      Some((n.items[0].s, n.items[1].s))
    else
      None
  }

  /** The value of the last (key v) pair among subs. */
  function LastPair(subs: seq<Node>, key: string): Option<string>
  {
    if subs == [] then None
    else
      var kv := Kv(subs[|subs| - 1]);
      if kv.Some? && kv.value.0 == key then Some(kv.value.1) else LastPair(subs[..|subs| - 1], key)
  }

  // ---------------------------------------------------------------------
  // _find_sections

  /** The key of a top-level section: the atom heading a non-empty list. */
  function SectionKey(n: Node): Option<string>
  {
    if n.List? && |n.items| > 0 && n.items[0].Atom? then Some(n.items[0].s) else None
  }

  /** The sections of the children items, the first one of each key kept. */
  function Sections(items: seq<Node>): map<string, Node>
  {
    if items == [] then map[]
    else
      var m := Sections(items[..|items| - 1]);
      var item := items[|items| - 1];
      var key := SectionKey(item);
      if key.Some? && key.value !in m then m[key.value := item] else m
  }

  method FindSections(root: Node) returns (r: Result<map<string, Node>>)
    ensures r.Err? <==> !HeadIs(root, "export")
    ensures r.Err? ==> r.error == InvalidRoot("export")
    ensures r.Ok? ==> r.value == Sections(root.items[1..])
  {
    if !(root.List? && |root.items| > 0 && root.items[0] == Atom("export")) {
      return Err(InvalidRoot("export"));
    }
    var sections: map<string, Node> := map[];
    var items := root.items[1..];
    var k := 0;
    while k < |items|
      invariant 0 <= k <= |items|
      invariant sections == Sections(items[..k])
    {
      var item := items[k];
      assert items[..k + 1][..k] == items[..k];
      if item.List? && |item.items| > 0 {
        var key := item.items[0];
        if key.Atom? && key.s !in sections {
          sections := sections[key.s := item];
        }
      }
      k := k + 1;
    }
    assert items[..k] == items;
    return Ok(sections);
  }

  /** First match wins: a key is present exactly when some child carries it,
      and it maps to the first child that does. */
  lemma {:induction false} SectionsFirstMatch(items: seq<Node>, key: string)
    ensures key in Sections(items) <==> exists k | 0 <= k < |items| :: SectionKey(items[k]) == Some(key)
    ensures forall k | 0 <= k < |items| && SectionKey(items[k]) == Some(key)
                       && (forall m | 0 <= m < k :: SectionKey(items[m]) != Some(key)) ::
              key in Sections(items) && Sections(items)[key] == items[k]
  {
    if items != [] {
      var init := items[..|items| - 1];
      SectionsFirstMatch(init, key);
      forall k | 0 <= k < |items| - 1 ensures items[k] == init[k] { }
    }
  }

  // ---------------------------------------------------------------------
  // Components

  datatype Component = Component(
    ref: string,
    value: string,
    footprint: string,
    datasheet: string,
    description: string,
    sheetname: string,
    sheetfile: string,
    properties: map<string, string>,
    fields: map<string, string>,
    lib: string,
    part: string,
    connections: map<string, string>,
    pinfunctions: map<string, string>)

  /** Component(ref=""): every attribute empty. */
  const NewComponent := Component("", "", "", "", "", "", "", map[], map[], "", "", map[], map[])

  /** A name and a text read from a record. */
  datatype Entry = Entry(name: string, val: string)

  /** The five scalar attributes a (key value) pair of a comp sets. */
  function SetAttribute(c: Component, k: string, v: string): Component
  {
    if k == "ref" then c.(ref := v)
    else if k == "value" then c.(value := v)
    else if k == "footprint" then c.(footprint := v)
    else if k == "datasheet" then c.(datasheet := v)
    else if k == "description" then c.(description := v)
    else c
  }

  /** What a (field ...) record declares: the last (name X) pair and the
      last bare atom. */
  function FieldEntry(subs: seq<Node>): Entry
  {
    if subs == [] then Entry("", "")
    else
      var e := FieldEntry(subs[..|subs| - 1]);
      var fsub := subs[|subs| - 1];
      var kv := Kv(fsub);
      if kv.Some? && kv.value.0 == "name" then e.(name := kv.value.1)
      else if fsub.Atom? then e.(val := fsub.s)
      else e
  }

  /** The field map after the (field ...) records flds of a (fields ...). */
  function FieldsFold(m: map<string, string>, flds: seq<Node>): map<string, string>
  {
    if flds == [] then m
    else
      var m' := FieldsFold(m, flds[..|flds| - 1]);
      var fld := flds[|flds| - 1];
      if HeadIs(fld, "field") then
        var e := FieldEntry(fld.items[1..]);
        if e.name != "" then m'[e.name := e.val] else m'
      else m'
  }

  /** What a (property ...) record declares: its last (name X) and its last
      (value Y) pair. */
  function PropertyEntry(subs: seq<Node>): Entry
  {
    if subs == [] then Entry("", "")
    else
      var e := PropertyEntry(subs[..|subs| - 1]);
      var kv := Kv(subs[|subs| - 1]);
      if kv.Some? && kv.value.0 == "name" then e.(name := kv.value.1)
      else if kv.Some? && kv.value.0 == "value" then e.(val := kv.value.1)
      else e
  }

  /** The effect of a (libsource ...) record's children. */
  function LibsourceFold(c: Component, subs: seq<Node>): Component
  {
    if subs == [] then c
    else
      var c' := LibsourceFold(c, subs[..|subs| - 1]);
      var kv := Kv(subs[|subs| - 1]);
      if kv.Some? && kv.value.0 == "lib" then c'.(lib := kv.value.1)
      else if kv.Some? && kv.value.0 == "part" then c'.(part := kv.value.1)
      else c'
  }

  /** A property with a non-empty name is stored and, for the two sheet
      names, mirrored into the dedicated attribute. */
  function SetProperty(c: Component, e: Entry): Component
  {
    if e.name == "" then c
    else
      c.(properties := c.properties[e.name := e.val],
         sheetname := if e.name == "Sheetname" then e.val else c.sheetname,
         sheetfile := if e.name == "Sheetfile" then e.val else c.sheetfile)
  }

  /** The effect of one child of a (comp ...) record. */
  function ApplySub(c: Component, sub: Node): Component
  {
    var kv := Kv(sub);
    if kv.Some? then SetAttribute(c, kv.value.0, kv.value.1)
    else if HeadIs(sub, "fields") then c.(fields := FieldsFold(c.fields, sub.items[1..]))
    else if HeadIs(sub, "property") then SetProperty(c, PropertyEntry(sub.items[1..]))
    else if HeadIs(sub, "libsource") then LibsourceFold(c, sub.items[1..])
    else c
  }

  function ApplySubs(c: Component, subs: seq<Node>): Component
  {
    if subs == [] then c else ApplySub(ApplySubs(c, subs[..|subs| - 1]), subs[|subs| - 1])
  }

  /** The component a (comp ...) record describes. */
  function CompOf(item: Node): Component
    requires item.List?
  {
    ApplySubs(NewComponent, if |item.items| == 0 then [] else item.items[1..])
  }

  predicate IsComp(item: Node)
  {
    HeadIs(item, "comp")
  }

  /** The registry after the children items of a (components ...) section. */
  function Registry(items: seq<Node>): map<string, Component>
  {
    if items == [] then map[]
    else
      var m := Registry(items[..|items| - 1]);
      var item := items[|items| - 1];
      if IsComp(item) && CompOf(item).ref != "" then m[CompOf(item).ref := CompOf(item)] else m
  }

  method ReadField(fld: Node) returns (name: string, text: string)
    requires HeadIs(fld, "field")
    ensures Entry(name, text) == FieldEntry(fld.items[1..])
  {
    name, text := "", "";
    var subs := fld.items[1..];
    var q := 0;
    while q < |subs|
      invariant 0 <= q <= |subs|
      invariant Entry(name, text) == FieldEntry(subs[..q])
    {
      assert subs[..q + 1][..q] == subs[..q];
      var fsub := subs[q];
      var kv2 := Kv(fsub);
      if kv2.Some? && kv2.value.0 == "name" {
        name := kv2.value.1;
      } else if fsub.Atom? {
        text := fsub.s;
      }
      q := q + 1;
    }
    assert subs[..q] == subs;
  }

  method ReadProperty(sub: Node) returns (name: string, val: string)
    requires HeadIs(sub, "property")
    ensures Entry(name, val) == PropertyEntry(sub.items[1..])
  {
    name, val := "", "";
    var subs := sub.items[1..];
    var q := 0;
    while q < |subs|
      invariant 0 <= q <= |subs|
      invariant Entry(name, val) == PropertyEntry(subs[..q])
    {
      assert subs[..q + 1][..q] == subs[..q];
      var kv2 := Kv(subs[q]);
      if kv2.Some? {
        if kv2.value.0 == "name" {
          name := kv2.value.1;
        } else if kv2.value.0 == "value" {
          val := kv2.value.1;
        }
      }
      q := q + 1;
    }
    assert subs[..q] == subs;
  }

  /** The (fields ...) branch of parse_components. */
  method ReadFields(c: Component, sub: Node) returns (c': Component)
    requires HeadIs(sub, "fields")
    ensures c' == c.(fields := FieldsFold(c.fields, sub.items[1..]))
  {
    c' := c;
    var flds := sub.items[1..];
    var p := 0;
    while p < |flds|
      invariant 0 <= p <= |flds|
      invariant c' == c.(fields := FieldsFold(c.fields, flds[..p]))
    {
      assert flds[..p + 1][..p] == flds[..p];
      var fld := flds[p];
      if fld.List? && |fld.items| > 0 && fld.items[0] == Atom("field") {
        var name, text := ReadField(fld);
        if name != "" {
          c' := c'.(fields := c'.fields[name := text]);
        }
      }
      p := p + 1;
    }
    assert flds[..p] == flds;
  }

  /** The (libsource ...) branch of parse_components. */
  method ReadLibsource(c: Component, sub: Node) returns (c': Component)
    requires HeadIs(sub, "libsource")
    ensures c' == LibsourceFold(c, sub.items[1..])
  {
    c' := c;
    var subs := sub.items[1..];
    var q := 0;
    while q < |subs|
      invariant 0 <= q <= |subs|
      invariant c' == LibsourceFold(c, subs[..q])
    {
      assert subs[..q + 1][..q] == subs[..q];
      var kv2 := Kv(subs[q]);
      if kv2.Some? {
        if kv2.value.0 == "lib" {
          c' := c'.(lib := kv2.value.1);
        } else if kv2.value.0 == "part" {
          c' := c'.(part := kv2.value.1);
        }
      }
      q := q + 1;
    }
    assert subs[..q] == subs;
  }

  /** The body of the loop over one (comp ...) record: its reference and
      the component its children describe. */
  method ReadComp(item: Node) returns (ref: string, comp: Component)
    requires IsComp(item)
    ensures comp == CompOf(item) && ref == comp.ref
  {
    ref := "";
    comp := NewComponent;
    var subs := item.items[1..];
    var m := 0;
    while m < |subs|
      invariant 0 <= m <= |subs|
      invariant comp == ApplySubs(NewComponent, subs[..m])
      invariant ref == comp.ref
    {
      assert subs[..m + 1][..m] == subs[..m];
      var sub := subs[m];
      var kv := Kv(sub);
      if kv.Some? {
        var (k, v) := kv.value;
        if k == "ref" {
          ref := v;
          comp := comp.(ref := v);
        } else if k == "value" {
          comp := comp.(value := v);
        } else if k == "footprint" {
          comp := comp.(footprint := v);
        } else if k == "datasheet" {
          comp := comp.(datasheet := v);
        } else if k == "description" {
          comp := comp.(description := v);
        }
      } else if sub.List? && |sub.items| > 0 {
        if sub.items[0] == Atom("fields") {
          comp := ReadFields(comp, sub);
        } else if sub.items[0] == Atom("property") {
          var name, val := ReadProperty(sub);
          if name != "" {
            comp := comp.(properties := comp.properties[name := val]);
            if name == "Sheetname" {
              comp := comp.(sheetname := val);
            }
            if name == "Sheetfile" {
              comp := comp.(sheetfile := val);
            }
          }
        } else if sub.items[0] == Atom("libsource") {
          LibsourceFoldKeeps(comp, sub.items[1..]);
          comp := ReadLibsource(comp, sub);
        }
      }
      m := m + 1;
    }
    assert subs[..m] == subs;
  }

  /** parse_components. */
  method ParseComponents(section: Node) returns (comps: map<string, Component>)
    requires section.List?
    ensures comps == Registry(if |section.items| == 0 then [] else section.items[1..])
  {
    comps := map[];
    var items := if |section.items| == 0 then [] else section.items[1..];
    var k := 0;
    while k < |items|
      invariant 0 <= k <= |items|
      invariant comps == Registry(items[..k])
    {
      assert items[..k + 1][..k] == items[..k];
      var item := items[k];
      if item.List? && |item.items| > 0 && item.items[0] == Atom("comp") {
        var ref, comp := ReadComp(item);
        if ref != "" {
          comps := comps[ref := comp];
        }
      }
      k := k + 1;
    }
    assert items[..k] == items;
  }

  // ----- properties of the component registry

  /** The invariant every component of the registry keeps: no field or
      property with an empty name is stored, and the sheet attributes mirror
      the Sheetname / Sheetfile properties. */
  predicate Consistent(c: Component)
  {
    && "" !in c.fields
    && "" !in c.properties
    && c.sheetname == Get(c.properties, "Sheetname", "")
    && c.sheetfile == Get(c.properties, "Sheetfile", "")
  }

  lemma {:induction false} FieldsFoldNoEmptyName(m: map<string, string>, flds: seq<Node>)
    requires "" !in m
    ensures "" !in FieldsFold(m, flds)
  {
    if flds != [] {
      FieldsFoldNoEmptyName(m, flds[..|flds| - 1]);
    }
  }

  lemma {:induction false} LibsourceFoldKeeps(c: Component, subs: seq<Node>)
    ensures LibsourceFold(c, subs) == c.(lib := LibsourceFold(c, subs).lib, part := LibsourceFold(c, subs).part)
  {
    if subs != [] {
      LibsourceFoldKeeps(c, subs[..|subs| - 1]);
    }
  }

  lemma {:induction false} ApplySubsConsistent(c: Component, subs: seq<Node>)
    requires Consistent(c)
    ensures Consistent(ApplySubs(c, subs))
  {
    if subs != [] {
      var c' := ApplySubs(c, subs[..|subs| - 1]);
      ApplySubsConsistent(c, subs[..|subs| - 1]);
      ConsistentStep(c', subs[|subs| - 1]);
    }
  }

  lemma ConsistentStep(c: Component, sub: Node)
    requires Consistent(c)
    ensures Consistent(ApplySub(c, sub))
  {
    var kv := Kv(sub);
    if kv.Some? {
      SetAttributeConsistent(c, kv.value.0, kv.value.1);
    } else if HeadIs(sub, "fields") {
      FieldsFoldNoEmptyName(c.fields, sub.items[1..]);
    } else if HeadIs(sub, "property") {
      SetPropertyConsistent(c, PropertyEntry(sub.items[1..]));
    } else if HeadIs(sub, "libsource") {
      LibsourceFoldKeeps(c, sub.items[1..]);
    }
  }

  lemma SetAttributeConsistent(c: Component, k: string, v: string)
    requires Consistent(c)
    ensures Consistent(SetAttribute(c, k, v))
  {
  }

  lemma SetPropertyConsistent(c: Component, e: Entry)
    requires Consistent(c)
    ensures Consistent(SetProperty(c, e))
  {
  }

  /** One child sets a scalar attribute only through a (key value) pair
      with that key. */
  lemma ScalarStep(c: Component, sub: Node)
    ensures var kv, d := Kv(sub), ApplySub(c, sub);
      && d.ref == (if kv.Some? && kv.value.0 == "ref" then kv.value.1 else c.ref)
      && d.value == (if kv.Some? && kv.value.0 == "value" then kv.value.1 else c.value)
      && d.footprint == (if kv.Some? && kv.value.0 == "footprint" then kv.value.1 else c.footprint)
      && d.datasheet == (if kv.Some? && kv.value.0 == "datasheet" then kv.value.1 else c.datasheet)
      && d.description == (if kv.Some? && kv.value.0 == "description" then kv.value.1 else c.description)
  {
    if Kv(sub).Some? {
    } else if HeadIs(sub, "fields") || HeadIs(sub, "property") {
    } else if HeadIs(sub, "libsource") {
      LibsourceFoldKeeps(c, sub.items[1..]);
    }
  }

  /** Each of the five scalar attributes is the value of the last pair
      with its key, or stays as it was when there is none. */
  lemma {:induction false} ScalarAttributesLastWins(c: Component, subs: seq<Node>)
    ensures ApplySubs(c, subs).ref == LastPair(subs, "ref").GetOr(c.ref)
    ensures ApplySubs(c, subs).value == LastPair(subs, "value").GetOr(c.value)
    ensures ApplySubs(c, subs).footprint == LastPair(subs, "footprint").GetOr(c.footprint)
    ensures ApplySubs(c, subs).datasheet == LastPair(subs, "datasheet").GetOr(c.datasheet)
    ensures ApplySubs(c, subs).description == LastPair(subs, "description").GetOr(c.description)
  {
    if subs != [] {
      var c' := ApplySubs(c, subs[..|subs| - 1]);
      ScalarAttributesLastWins(c, subs[..|subs| - 1]);
      ScalarStep(c', subs[|subs| - 1]);
    }
  }

  /** The value of the last (property ...) record named name among subs. */
  function LastProperty(subs: seq<Node>, name: string): Option<string>
  {
    if subs == [] then None
    else
      var sub := subs[|subs| - 1];
      if Kv(sub).None? && HeadIs(sub, "property") && PropertyEntry(sub.items[1..]).name == name then
        Some(PropertyEntry(sub.items[1..]).val)
      else
        LastProperty(subs[..|subs| - 1], name)
  }

  /** Properties are last-write-wins per name. */
  lemma {:induction false} PropertiesLastWins(c: Component, subs: seq<Node>, name: string)
    requires name != ""
    ensures name in ApplySubs(c, subs).properties <==> name in c.properties || LastProperty(subs, name).Some?
    ensures name in ApplySubs(c, subs).properties ==>
      ApplySubs(c, subs).properties[name] == LastProperty(subs, name).GetOr(Get(c.properties, name, ""))
  {
    if subs != [] {
      var c' := ApplySubs(c, subs[..|subs| - 1]);
      PropertiesLastWins(c, subs[..|subs| - 1], name);
      PropertyStep(c', subs[|subs| - 1], name);
    }
  }

  /** One child touches the property name only when it is a (property ...)
      record declaring that name. */
  lemma PropertyStep(c: Component, sub: Node, name: string)
    ensures var d := ApplySub(c, sub);
      if Kv(sub).None? && HeadIs(sub, "property") && PropertyEntry(sub.items[1..]).name == name && name != "" then
        d.properties == c.properties[name := PropertyEntry(sub.items[1..]).val]
      else
        (name in d.properties <==> name in c.properties) && (name in c.properties ==> d.properties[name] == c.properties[name])
  {
    if Kv(sub).Some? {
    } else if HeadIs(sub, "fields") || HeadIs(sub, "property") {
    } else if HeadIs(sub, "libsource") {
      LibsourceFoldKeeps(c, sub.items[1..]);
    }
  }

  /** The text of the last (field ...) named name among flds. */
  function LastFieldIn(flds: seq<Node>, name: string): Option<string>
  {
    if flds == [] then None
    else
      var fld := flds[|flds| - 1];
      if HeadIs(fld, "field") && FieldEntry(fld.items[1..]).name == name then
        Some(FieldEntry(fld.items[1..]).val)
      else
        LastFieldIn(flds[..|flds| - 1], name)
  }

  /** The text of the last field named name over all (fields ...) records. */
  function LastField(subs: seq<Node>, name: string): Option<string>
  {
    if subs == [] then None
    else
      var sub := subs[|subs| - 1];
      if Kv(sub).None? && HeadIs(sub, "fields") && LastFieldIn(sub.items[1..], name).Some? then
        LastFieldIn(sub.items[1..], name)
      else
        LastField(subs[..|subs| - 1], name)
  }

  lemma {:induction false} FieldsFoldLastWins(m: map<string, string>, flds: seq<Node>, name: string)
    requires name != ""
    ensures name in FieldsFold(m, flds) <==> name in m || LastFieldIn(flds, name).Some?
    ensures name in FieldsFold(m, flds) ==> FieldsFold(m, flds)[name] == LastFieldIn(flds, name).GetOr(Get(m, name, ""))
  {
    if flds != [] {
      FieldsFoldLastWins(m, flds[..|flds| - 1], name);
    }
  }

  /** Fields are last-write-wins per name, across every (fields ...) record. */
  lemma {:induction false} FieldsLastWins(c: Component, subs: seq<Node>, name: string)
    requires name != ""
    ensures name in ApplySubs(c, subs).fields <==> name in c.fields || LastField(subs, name).Some?
    ensures name in ApplySubs(c, subs).fields ==>
      ApplySubs(c, subs).fields[name] == LastField(subs, name).GetOr(Get(c.fields, name, ""))
  {
    if subs != [] {
      var c' := ApplySubs(c, subs[..|subs| - 1]);
      FieldsLastWins(c, subs[..|subs| - 1], name);
      var sub := subs[|subs| - 1];
      FieldsStep(c', sub);
      if Kv(sub).None? && HeadIs(sub, "fields") {
        FieldsFoldLastWins(c'.fields, sub.items[1..], name);
      }
    }
  }

  /** Only a (fields ...) record changes the field map. */
  lemma FieldsStep(c: Component, sub: Node)
    ensures ApplySub(c, sub).fields ==
      if Kv(sub).None? && HeadIs(sub, "fields") then FieldsFold(c.fields, sub.items[1..]) else c.fields
  {
    if Kv(sub).Some? {
    } else if HeadIs(sub, "fields") || HeadIs(sub, "property") {
    } else if HeadIs(sub, "libsource") {
      LibsourceFoldKeeps(c, sub.items[1..]);
    }
  }

  /** item is a (comp ...) record whose ref is r. */
  predicate Declares(item: Node, r: string)
  {
    IsComp(item) && CompOf(item).ref == r
  }

  /** The registry holds a ref exactly when some comp record declares it
      and it is not empty. */
  lemma {:induction false} RegistryKeys(items: seq<Node>, r: string)
    ensures r in Registry(items) <==> r != "" && exists k | 0 <= k < |items| :: Declares(items[k], r)
  {
    if items != [] {
      var init := items[..|items| - 1];
      RegistryKeys(init, r);
      if r in Registry(init) {
        var k :| 0 <= k < |init| && Declares(init[k], r);
        assert items[k] == init[k];
      }
      if exists k | 0 <= k < |items| :: Declares(items[k], r) {
        var k :| 0 <= k < |items| && Declares(items[k], r);
        if k < |init| {
          assert items[k] == init[k];
        }
      }
    }
  }

  /** The entry for r is the component of the last record declaring r. */
  lemma {:induction false} RegistryLastWins(items: seq<Node>, r: string, k: nat)
    requires k < |items| && r != "" && Declares(items[k], r)
    requires forall m | k < m < |items| :: !Declares(items[m], r)
    ensures r in Registry(items) && Registry(items)[r] == CompOf(items[k])
  {
    var init := items[..|items| - 1];
    if k < |items| - 1 {
      forall m | k < m < |init| ensures !Declares(init[m], r) {
        assert init[m] == items[m];
      }
      assert init[k] == items[k];
      RegistryLastWins(init, r, k);
    }
  }

  /** Every entry is keyed by its own ref and keeps the consistency invariant. */
  lemma {:induction false} RegistryConsistent(items: seq<Node>, r: string)
    requires r in Registry(items)
    ensures Registry(items)[r].ref == r && Consistent(Registry(items)[r])
  {
    var init := items[..|items| - 1];
    var item := items[|items| - 1];
    if IsComp(item) && CompOf(item).ref == r && r != "" {
      ApplySubsConsistent(NewComponent, if |item.items| == 0 then [] else item.items[1..]);
    } else {
      RegistryConsistent(init, r);
    }
  }

  // ---------------------------------------------------------------------
  // Nets

  datatype Net = Net(name: string, code: string, netClass: string, nodes: seq<map<string, string>>)

  /** Every (key value) pair of a (node ...) record, the last one per key. */
  function NodeAttrs(subs: seq<Node>): map<string, string>
  {
    if subs == [] then map[]
    else
      var m := NodeAttrs(subs[..|subs| - 1]);
      var kv := Kv(subs[|subs| - 1]);
      if kv.Some? then m[kv.value.0 := kv.value.1] else m
  }

  /** A (node ...) child of a net that parse_nets keeps. */
  predicate IsKeptNode(sub: Node)
  {
    Kv(sub).None? && HeadIs(sub, "node")
    && "ref" in NodeAttrs(sub.items[1..]) && "pin" in NodeAttrs(sub.items[1..])
  }

  /** The net a (net ...) record's children describe. */
  function NetFold(subs: seq<Node>): Net
  {
    if subs == [] then Net("", "", "", [])
    else
      var n := NetFold(subs[..|subs| - 1]);
      var sub := subs[|subs| - 1];
      var kv := Kv(sub);
      if kv.Some? then
        if kv.value.0 == "name" then n.(name := kv.value.1)
        else if kv.value.0 == "code" then n.(code := kv.value.1)
        else if kv.value.0 == "class" then n.(netClass := kv.value.1)
        else n
      else if IsKeptNode(sub) then n.(nodes := n.nodes + [NodeAttrs(sub.items[1..])])
      else n
  }

  predicate IsNet(item: Node)
  {
    HeadIs(item, "net")
  }

  function NetOf(item: Node): Net
    requires IsNet(item)
  {
    NetFold(item.items[1..])
  }

  /** The net list after the children items of a (nets ...) section. */
  function Nets(items: seq<Node>): seq<Net>
  {
    if items == [] then []
    else
      var ns := Nets(items[..|items| - 1]);
      var item := items[|items| - 1];
      if IsNet(item) then ns + [NetOf(item)] else ns
  }

  method ReadNode(sub: Node) returns (node: map<string, string>)
    requires HeadIs(sub, "node")
    ensures node == NodeAttrs(sub.items[1..])
  {
    node := map[];
    var subs := sub.items[1..];
    var q := 0;
    while q < |subs|
      invariant 0 <= q <= |subs|
      invariant node == NodeAttrs(subs[..q])
    {
      assert subs[..q + 1][..q] == subs[..q];
      var kv2 := Kv(subs[q]);
      if kv2.Some? {
        node := node[kv2.value.0 := kv2.value.1];
      }
      q := q + 1;
    }
    assert subs[..q] == subs;
  }

  /** The body of the loop over one (net ...) record. */
  method ReadNet(item: Node) returns (net: Net)
    requires IsNet(item)
    ensures net == NetOf(item)
  {
    var netName, netCode, netClass := "", "", "";
    var nodes: seq<map<string, string>> := [];
    var subs := item.items[1..];
    var m := 0;
    while m < |subs|
      invariant 0 <= m <= |subs|
      invariant Net(netName, netCode, netClass, nodes) == NetFold(subs[..m])
    {
      assert subs[..m + 1][..m] == subs[..m];
      var sub := subs[m];
      var kv := Kv(sub);
      if kv.Some? {
        var (k, v) := kv.value;
        if k == "name" {
          netName := v;
        } else if k == "code" {
          netCode := v;
        } else if k == "class" {
          netClass := v;
        }
      } else if sub.List? && |sub.items| > 0 && sub.items[0] == Atom("node") {
        var node := ReadNode(sub);
        if "ref" in node && "pin" in node {
          nodes := nodes + [node];
        }
      }
      m := m + 1;
    }
    assert subs[..m] == subs;
    net := Net(netName, netCode, netClass, nodes);
  }

  /** parse_nets. */
  method ParseNets(section: Node) returns (nets: seq<Net>)
    requires section.List?
    ensures nets == Nets(if |section.items| == 0 then [] else section.items[1..])
  {
    nets := [];
    var items := if |section.items| == 0 then [] else section.items[1..];
    var k := 0;
    while k < |items|
      invariant 0 <= k <= |items|
      invariant nets == Nets(items[..k])
    {
      assert items[..k + 1][..k] == items[..k];
      var item := items[k];
      if item.List? && |item.items| > 0 && item.items[0] == Atom("net") {
        var net := ReadNet(item);
        nets := nets + [net];
      }
      k := k + 1;
    }
    assert items[..k] == items;
  }

  // ----- properties of the net list

  function CountNets(items: seq<Node>): nat
  {
    if items == [] then 0 else CountNets(items[..|items| - 1]) + (if IsNet(items[|items| - 1]) then 1 else 0)
  }

  function CountKeptNodes(subs: seq<Node>): nat
  {
    if subs == [] then 0 else CountKeptNodes(subs[..|subs| - 1]) + (if IsKeptNode(subs[|subs| - 1]) then 1 else 0)
  }

  /** A node's attribute map holds, for each key, the last pair with it. */
  lemma {:induction false} NodeAttrsLastWins(subs: seq<Node>, key: string)
    ensures key in NodeAttrs(subs) <==> LastPair(subs, key).Some?
    ensures key in NodeAttrs(subs) ==> NodeAttrs(subs)[key] == LastPair(subs, key).value
  {
    if subs != [] {
      NodeAttrsLastWins(subs[..|subs| - 1], key);
    }
  }

  /** A net keeps exactly its (node ...) children that carry both ref and
      pin, and takes its name from the last (name X) pair. */
  lemma {:induction false} NetFoldShape(subs: seq<Node>)
    ensures |NetFold(subs).nodes| == CountKeptNodes(subs)
    ensures forall node | node in NetFold(subs).nodes :: "ref" in node && "pin" in node
    ensures NetFold(subs).name == LastPair(subs, "name").GetOr("")
  {
    if subs != [] {
      NetFoldShape(subs[..|subs| - 1]);
    }
  }

  /** One net per (net ...) record, in document order, each holding only
      complete nodes. */
  lemma {:induction false} NetsShape(items: seq<Node>)
    ensures |Nets(items)| == CountNets(items)
    ensures forall n, node | n in Nets(items) && node in n.nodes :: "ref" in node && "pin" in node
  {
    if items != [] {
      NetsShape(items[..|items| - 1]);
      var item := items[|items| - 1];
      if IsNet(item) {
        NetFoldShape(item.items[1..]);
      }
    }
  }

  // ---------------------------------------------------------------------
  // Cross-linking (the loop in main)

  /** One (net name, node) pair visited by the cross-link loop. */
  datatype Link = Link(netName: string, node: map<string, string>)

  function NetLinks(n: Net): seq<Link>
  {
    seq(|n.nodes|, k requires 0 <= k < |n.nodes| => Link(n.name, n.nodes[k]))
  }

  /** Every (net name, node) pair, nets in order and nodes in order. */
  function AllLinks(nets: seq<Net>): seq<Link>
  {
    if nets == [] then [] else AllLinks(nets[..|nets| - 1]) + NetLinks(nets[|nets| - 1])
  }

  /** The effect of one node: a known ref with a non-empty pin gets
      connections[pin] set to the net name, and pinfunctions[pin] set when the
      node has a pinfunction. */
  function LinkOne(comps: map<string, Component>, l: Link): map<string, Component>
  {
    var ref := Get(l.node, "ref", "");
    var pin := Get(l.node, "pin", "");
    if ref == "" || pin == "" || ref !in comps then comps
    else
      var c := comps[ref];
      var c' := c.(connections := c.connections[pin := l.netName]);
      var c'' := if "pinfunction" in l.node then c'.(pinfunctions := c'.pinfunctions[pin := l.node["pinfunction"]]) else c';
      comps[ref := c'']
  }

  function LinkAll(comps: map<string, Component>, links: seq<Link>): map<string, Component>
  {
    if links == [] then comps else LinkOne(LinkAll(comps, links[..|links| - 1]), links[|links| - 1])
  }

  /** One node of the cross-link loop. */
  method LinkNode(comps: map<string, Component>, netName: string, node: map<string, string>)
    returns (comps': map<string, Component>)
    ensures comps' == LinkOne(comps, Link(netName, node))
  {
    comps' := comps;
    var ref := Get(node, "ref", "");
    var pin := Get(node, "pin", "");
    if ref != "" && pin != "" && ref in comps' {
      comps' := comps'[ref := comps'[ref].(connections := comps'[ref].connections[pin := netName])];
      if "pinfunction" in node {
        comps' := comps'[ref := comps'[ref].(pinfunctions := comps'[ref].pinfunctions[pin := node["pinfunction"]])];
      }
    }
  }

  /** The inner loop of the cross-link: every node of one net. */
  method LinkNet(comps0: map<string, Component>, net: Net) returns (comps: map<string, Component>)
    ensures comps == LinkAll(comps0, NetLinks(net))
  {
    comps := comps0;
    var links := NetLinks(net);
    var b := 0;
    while b < |net.nodes|
      invariant 0 <= b <= |net.nodes|
      invariant comps == LinkAll(comps0, links[..b])
    {
      var node := net.nodes[b];
      assert links[..b + 1][..b] == links[..b];
      assert links[..b + 1][b] == Link(net.name, node);
      comps := LinkNode(comps, net.name, node);
      b := b + 1;
    }
    assert links[..b] == links;
  }

  lemma {:induction false} LinkAllAppend(comps: map<string, Component>, xs: seq<Link>, ys: seq<Link>)
    ensures LinkAll(comps, xs + ys) == LinkAll(LinkAll(comps, xs), ys)
    decreases |ys|
  {
    if ys == [] {
      assert xs + ys == xs;
    } else {
      assert (xs + ys)[..|xs + ys| - 1] == xs + ys[..|ys| - 1];
      LinkAllAppend(comps, xs, ys[..|ys| - 1]);
    }
  }

  /** The cross-link loop of main (the registry it updates is a local
      value here). */
  method CrossLink(comps0: map<string, Component>, nets: seq<Net>) returns (comps: map<string, Component>)
    ensures comps == LinkAll(comps0, AllLinks(nets))
  {
    comps := comps0;
    var a := 0;
    while a < |nets|
      invariant 0 <= a <= |nets|
      invariant comps == LinkAll(comps0, AllLinks(nets[..a]))
    {
      assert nets[..a + 1][..a] == nets[..a];
      LinkAllAppend(comps0, AllLinks(nets[..a]), NetLinks(nets[a]));
      comps := LinkNet(comps, nets[a]);
      a := a + 1;
    }
    assert nets[..a] == nets;
  }

  // ----- properties of the cross-link

  /** The registry with its per-pin maps cleared. */
  function Unlinked(c: Component): Component
  {
    c.(connections := map[], pinfunctions := map[])
  }

  /** The net name the last node naming (ref, pin) brings. */
  function LastConnection(links: seq<Link>, ref: string, pin: string): Option<string>
  {
    if links == [] then None
    else
      var l := links[|links| - 1];
      if Get(l.node, "ref", "") == ref && Get(l.node, "pin", "") == pin then Some(l.netName)
      else LastConnection(links[..|links| - 1], ref, pin)
  }

  /** The pin function of the last node naming (ref, pin) that carries one. */
  function LastPinfunction(links: seq<Link>, ref: string, pin: string): Option<string>
  {
    if links == [] then None
    else
      var l := links[|links| - 1];
      if Get(l.node, "ref", "") == ref && Get(l.node, "pin", "") == pin && "pinfunction" in l.node then
        Some(l.node["pinfunction"])
      else LastPinfunction(links[..|links| - 1], ref, pin)
  }

  /** The cross-link keeps the registry's key set and every attribute other
      than the two per-pin maps; nodes of unknown refs change nothing. */
  lemma {:induction false} CrossLinkKeepsRegistry(comps: map<string, Component>, links: seq<Link>)
    ensures LinkAll(comps, links).Keys == comps.Keys
    ensures forall r | r in comps :: Unlinked(LinkAll(comps, links)[r]) == Unlinked(comps[r])
  {
    if links != [] {
      CrossLinkKeepsRegistry(comps, links[..|links| - 1]);
    }
  }

  /** What one node does to the per-pin maps of a registered ref. */
  lemma LinkOneAt(comps: map<string, Component>, l: Link, r: string)
    requires r in comps && r != ""
    ensures r in LinkOne(comps, l)
    ensures var pin := Get(l.node, "pin", "");
      var hit := Get(l.node, "ref", "") == r && pin != "";
      && LinkOne(comps, l)[r].connections ==
           (if hit then comps[r].connections[pin := l.netName] else comps[r].connections)
      && LinkOne(comps, l)[r].pinfunctions ==
           (if hit && "pinfunction" in l.node then comps[r].pinfunctions[pin := l.node["pinfunction"]]
            else comps[r].pinfunctions)
  {
  }

  /** For a known ref and a non-empty pin, connections[pin] is the net of
      the last node naming that (ref, pin). */
  lemma {:induction false} ConnectionsLastWins(comps: map<string, Component>, links: seq<Link>, r: string, pin: string)
    requires r in comps && r != "" && pin != ""
    ensures r in LinkAll(comps, links)
    ensures var c := LinkAll(comps, links)[r];
      && (pin in c.connections <==> pin in comps[r].connections || LastConnection(links, r, pin).Some?)
      && (pin in c.connections ==> c.connections[pin] == LastConnection(links, r, pin).GetOr(Get(comps[r].connections, pin, "")))
  {
    if links != [] {
      var init := LinkAll(comps, links[..|links| - 1]);
      ConnectionsLastWins(comps, links[..|links| - 1], r, pin);
      LinkOneAt(init, links[|links| - 1], r);
    }
  }

  /** For a known ref and a non-empty pin, pinfunctions[pin] is the pin
      function of the last node naming that (ref, pin) that carries one. */
  lemma {:induction false} PinfunctionsLastWins(comps: map<string, Component>, links: seq<Link>, r: string, pin: string)
    requires r in comps && r != "" && pin != ""
    ensures r in LinkAll(comps, links)
    ensures var c := LinkAll(comps, links)[r];
      && (pin in c.pinfunctions <==> pin in comps[r].pinfunctions || LastPinfunction(links, r, pin).Some?)
      && (pin in c.pinfunctions ==> c.pinfunctions[pin] == LastPinfunction(links, r, pin).GetOr(Get(comps[r].pinfunctions, pin, "")))
  {
    if links != [] {
      var init := LinkAll(comps, links[..|links| - 1]);
      PinfunctionsLastWins(comps, links[..|links| - 1], r, pin);
      LinkOneAt(init, links[|links| - 1], r);
    }
  }

  // ---------------------------------------------------------------------
  // The extraction pipeline of main, from the parsed root

  datatype Netlist = Netlist(components: map<string, Component>, nets: seq<Net>)

  function Children(n: Node): seq<Node>
    requires n.List?
  {
    if |n.items| == 0 then [] else n.items[1..]
  }

  /** _find_sections, the missing-section check, parse_components,
      parse_nets and the cross-link, in the order main runs them. */
  method ExtractNetlist(root: Node) returns (r: Result<Netlist>)
    ensures r.Err? <==> !HeadIs(root, "export")
                        || "components" !in Sections(root.items[1..])
                        || "nets" !in Sections(root.items[1..])
    ensures r.Err? && HeadIs(root, "export") ==> r.error == MissingSection
    ensures r.Ok? ==>
      var secs := Sections(root.items[1..]);
      && secs["components"].List? && secs["nets"].List?
      && r.value.nets == Nets(Children(secs["nets"]))
      && r.value.components == LinkAll(Registry(Children(secs["components"])), AllLinks(r.value.nets))
  {
    var sections := FindSections(root);
    if sections.Err? {
      return Err(sections.error);
    }
    if "components" !in sections.value || "nets" !in sections.value {
      return Err(MissingSection);
    }
    var componentsSection := sections.value["components"];
    var netsSection := sections.value["nets"];
    SectionsAreLists(root.items[1..]);
    var comps := ParseComponents(componentsSection);
    var nets := ParseNets(netsSection);
    comps := CrossLink(comps, nets);
    return Ok(Netlist(comps, nets));
  }

  lemma {:induction false} SectionsAreLists(items: seq<Node>)
    ensures forall key | key in Sections(items) :: Sections(items)[key].List? && SectionKey(Sections(items)[key]) == Some(key)
  {
    if items != [] {
      SectionsAreLists(items[..|items| - 1]);
    }
  }

  /** is_ic: "U" followed by one or more digits. */
  predicate IsIc(ref: string)
  {
    |ref| >= 1 && ref[0] == 'U' && |ref[1..]| > 0 && AllDigits(ref[1..])
  }
}
