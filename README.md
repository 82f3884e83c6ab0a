# OpenFC board tooling, modelled in Dafny

This project models the data-processing core of the OpenFC flight-controller
hardware scripts. It covers four pieces.

- **The KiCad S-expression front end** shared by the netlist and board
  extractors: `tokenize_sexpr` and `parse_sexpr`.
- **The netlist extractor**:
  - the `(export ...)` section lookup;
  - the component registry with its last-write-wins attributes, fields and
    properties;
  - the net list with its kept nodes;
  - the pin-to-net and pin-to-pin-function cross-link;
  - the `is_ic` test.
- **The board extractor**:
  - the `(kicad_pcb ...)` walk that builds the net id table and the emitted
    footprints with their pads;
  - the property and key/value helpers;
  - `is_ic_ref`;
  - the per-net pad count.
- **The connectivity report**:
  - `sheet_from_net` and `norm`;
  - the grouping of pads into per-net node lists;
  - the (ref, pad) sort;
  - the per-sheet net listing with its truncation rule.

It also models the line-oriented **Edge.Cuts stroke-width rewriter**,
`update_gr_block` and `update_file`, with its three line classifiers and its
width-line matcher.

Modules, one per file:

| file | module | models |
|---|---|---|
| base.dfy | Base | Option; the `str.isspace` character set; ASCII digit and word classes; counting; generic sequence facts |
| lexer.dfy | Lexer | `tokenize_sexpr` |
| parser.dfy | Parser | the parse tree, `parse_sexpr` and its four errors |
| netlist.dfy | Netlist | `_kv`, `_find_sections`, `Component`, `parse_components`, `parse_nets`, the cross-link loop of `main`, `is_ic` |
| pcb.dfy | Pcb | `Pad`, `Footprint`, `_kv_str`, `_extract_property`, `parse_board` after the file is parsed, `is_ic_ref`, the `net_counts` loop |
| ordering.dfy | Ordering | Python's string and tuple order, and a stable sort by key (a reference definition of `sorted(..., key=...)`) |
| connectivity.dfy | Connectivity | `sheet_from_net`, `norm`, the net-to-nodes grouping, the by-sheet listing and the truncation decision |
| edgecuts.dfy | EdgeCuts | `GR_START_RE`, `LAYER_EDGE_CUTS`, `WIDTH_LINE_RE`, `STROKE_START_RE` as hand-written matchers; the width-line rewrite |
| passes.dfy | EdgeCutsPass | `update_gr_block` and `update_file` |

## How the model is organised

**Loops become methods.** Each loop of the source becomes a method with its
loop invariants. Examples:

- the tokenizer's cursor loop;
- `parse_one`'s shared cursor;
- the component, net and cross-link loops;
- the board walk;
- the grouping loop;
- the two line passes.

Each method's `ensures` ties its result to a specification function, which
is a left fold over the input or a state machine step. The promised
properties are then proved about that function as lemmas.

**Records are values.** Component, pad and footprint records are updated by
record update. The source's dataclass instances are never shared before they
are stored, so this loses nothing.

**The line passes are generic.** They are written over a `Syntax` value that
holds the three line classifiers and the width-line rewrite. `WidthSyntax(w)`
instantiates it with the EdgeCuts matchers and the width text `w`.
Idempotence holds for any syntax whose rewrite is stable, and `WidthStable`
proves that the real one is.

**Behaviour of the code that the model keeps.** These follow from the code as
written, and the model states them as they are:

- A well-formed form followed by an extra `)` fails with "trailing tokens".
  The extra `)` is only looked at after the first form is complete
  (hardware/tools/openfc_netlist_extract.py:84-85), so the "unexpected ')'"
  error is raised only for a `)` where a form should start.
- Whitespace is tested with `str.isspace` (openfc_netlist_extract.py:23, 49),
  so it is the full set of characters for which CPython's `str.isspace`
  holds, not only ASCII whitespace. This set is the same one that `\s`
  matches in a `str` pattern.
- Tokens are plain strings (openfc_netlist_extract.py:14), so a quoted `"("`
  or `")"` is afterwards parsed as structure.

**Where the code departs from its documentation, the model follows the
code:** a net selected by `--expand` that has more than `--max-nodes` nodes is
still cut at `max_nodes` (openfc_connectivity_report.py:131), although the
option's help text says it will "fully expand" those nets
(openfc_connectivity_report.py:50).

## Model

| member | source | states |
|---|---|---|
| Lexer.LexFrom | hardware/tools/openfc_netlist_extract.py:21-52 | reference definition of the tokens of the text from a position on: whitespace skipped, a paren its own token, a quoted string its unescaped contents, otherwise a symbol run |
| Lexer.Lex | hardware/tools/openfc_netlist_extract.py:17-53 | reference definition of `tokenize_sexpr`: the tokens of the whole text |
| Lexer.SymbolEnd | hardware/tools/openfc_netlist_extract.py:48-50 | the symbol scan stops at the first whitespace or paren, and every character it passes is a symbol character |
| Lexer.QuotedFrom | hardware/tools/openfc_netlist_extract.py:31-45 | the quoted scan never moves backwards, produces at most one character per input character, and when it stops before the end it has just consumed the closing quote |
| Lexer.ScanQuoted | hardware/tools/openfc_netlist_extract.py:31-45 | the inner quoted-string loop returns exactly the unescaped contents and end position of the reference scan |
| Lexer.ScanSymbol | hardware/tools/openfc_netlist_extract.py:48-50 | the symbol loop stops where the reference scan does |
| Lexer.NextToken | hardware/tools/openfc_netlist_extract.py:22-52 | one loop iteration at a non-space character emits the first token of the reference token list and advances strictly |
| Lexer.Tokenize | hardware/tools/openfc_netlist_extract.py:17-53 | the tokenizer never fails and returns exactly the reference token list |
| Lexer.QuotedPlainRun | hardware/tools/openfc_netlist_extract.py:43-44 | a run without quotes or backslashes is copied verbatim into the quoted value |
| Lexer.EscapedQuoteExample | hardware/tools/openfc_netlist_extract.py:35-39 | a backslash copies the next character, so `"a\"b"` is the single token `a"b` |
| Lexer.QuoteFreeRunsToEnd | hardware/tools/openfc_netlist_extract.py:33-44 | a quoted body with no `"` in it is never closed: the scan runs to the end of the text |
| Lexer.UnterminatedQuote | hardware/tools/openfc_netlist_extract.py:30-46 | for any contents, a quoted string whose scan runs to the end of input is exactly one token, its unescaped contents; contents without `"` always run to the end; plain contents are kept verbatim |
| Lexer.PlainRunReaches | hardware/tools/openfc_netlist_extract.py:43-44 | the quoted scan passes over a run without quotes or backslashes one character at a time |
| Lexer.ScanKeepsTrailingBackslash | hardware/tools/openfc_netlist_extract.py:33-44 | when the quoted scan arrives unescaped at a backslash that is the last input character, it runs to the end of the input and the value ends with that backslash |
| Lexer.LoneTrailingBackslash | hardware/tools/openfc_netlist_extract.py:30-46 | a backslash that the quoted scan reaches unescaped as the last input character is kept literally at the end of the single token; after plain contents the scan always reaches it, and the token is the contents followed by the backslash |
| Lexer.RemoveSpaceOfSymbolRun | hardware/tools/openfc_netlist_extract.py:48-51 | a symbol run is kept whole when whitespace is removed |
| Lexer.LexConcatNoQuote | hardware/tools/openfc_netlist_extract.py:21-52 | from any position of a text without `"`, the concatenated tokens are the rest of the text with whitespace removed |
| Lexer.LexShapesNoQuote | hardware/tools/openfc_netlist_extract.py:23-52 | without `"`, every token is `(`, `)` or a non-empty symbol with no whitespace or paren |
| Lexer.LexNoQuote | hardware/tools/openfc_netlist_extract.py:17-53 | for a whole text without `"`: tokens concatenate to the text minus whitespace, and each is a paren or a symbol |
| Parser.Parse | hardware/tools/openfc_netlist_extract.py:60-86 | reference definition of `parse_sexpr`: parse one form from the start, then fail with "trailing tokens" at its end position if tokens remain |
| Parser.ParseNode | hardware/tools/openfc_netlist_extract.py:63-81 | a successful parse_one consumes at least one token and stays within the input |
| Parser.ParseItems | hardware/tools/openfc_netlist_extract.py:71-77 | a successful list loop consumes at least its closing `)` and stays within the input |
| Parser.ParseOne | hardware/tools/openfc_netlist_extract.py:63-81 | parse_one, with its shared cursor, returns exactly the reference parse result and cursor |
| Parser.ParseSexpr | hardware/tools/openfc_netlist_extract.py:60-86 | parse_sexpr returns exactly the reference result: a tree, or one of the four errors |
| Parser.ParseNodeSound | hardware/tools/openfc_netlist_extract.py:63-81 | a successful parse consumes exactly the tokens of the flattened tree, and the tree is well formed |
| Parser.ParseItemsSound | hardware/tools/openfc_netlist_extract.py:71-77 | a successful list loop extends its accumulator, and the tokens it consumes are the flattened new children followed by `)` |
| Parser.ParseNodeComplete | hardware/tools/openfc_netlist_extract.py:63-81 | the flattening of any well-formed tree, found in the input, parses back to that tree |
| Parser.ParseItemsComplete | hardware/tools/openfc_netlist_extract.py:71-77 | flattened well-formed children followed by `)` parse back into the list |
| Parser.ParseIffFlatten | hardware/tools/openfc_netlist_extract.py:60-86 | parse_sexpr succeeds with a tree exactly when the tokens are that well-formed tree flattened (both directions of the round trip) |
| Parser.NestedErrorIsUnterminated | hardware/tools/openfc_netlist_extract.py:71-77 | any error inside an open list is "unterminated list" |
| Parser.ParseErrors | hardware/tools/openfc_netlist_extract.py:65-85 | empty input is exactly "unexpected end"; a leading `)` is exactly "unexpected ')'"; "unterminated list" needs a leading `(`; "trailing tokens" is exactly a first form that ends before the input does |
| Parser.ExtraCloseParen | hardware/tools/openfc_netlist_extract.py:84-85 | a well-formed form followed by one `)` gives "trailing tokens", not "unexpected ')'" |
| Parser.TruncatedNode | hardware/tools/openfc_netlist_extract.py:72-73 | a proper prefix of a flattened tree that ends inside a list is "unterminated list" |
| Parser.TruncatedItems | hardware/tools/openfc_netlist_extract.py:72-73 | an open list whose input stops before its `)` is "unterminated list" |
| Parser.MissingCloseParen | hardware/tools/openfc_netlist_extract.py:72-73 | dropping the final `)` of a flattened list is "unterminated list" |
| Parser.QuotedParenIsStructure | hardware/tools/openfc_netlist_extract.py:68-79 | a quoted `")"` becomes a plain `)` token, which parse_one then treats as structure |
| Netlist.Sections | hardware/tools/openfc_netlist_extract.py:99-103 | reference definition of the section map: the first child list with each atom head |
| Netlist.ApplySub | hardware/tools/openfc_netlist_extract.py:141-194 | reference definition of one child of a comp record: a `(key value)` pair sets a scalar; otherwise a fields, property or libsource record is folded in; anything else is ignored |
| Netlist.CompOf | hardware/tools/openfc_netlist_extract.py:139-194 | reference definition of the component a comp record describes: all its children applied in order to an empty component |
| Netlist.Registry | hardware/tools/openfc_netlist_extract.py:134-197 | reference definition of `parse_components`: the comp records in order, each one with a non-empty ref stored under that ref |
| Netlist.NetOf | hardware/tools/openfc_netlist_extract.py:205-228 | reference definition of the net a net record describes |
| Netlist.Nets | hardware/tools/openfc_netlist_extract.py:200-229 | reference definition of `parse_nets`: one net per net record, in order |
| Netlist.LinkOne | hardware/tools/openfc_netlist_extract.py:266-272 | reference definition of one node of the cross-link: skipped unless ref and pin are non-empty and ref is registered; otherwise the pin's net is set, and its pin function when the node has one |
| Netlist.LinkAll | hardware/tools/openfc_netlist_extract.py:263-272 | reference definition of the cross-link: LinkOne applied to every node of every net, in order |
| Netlist.IsIc | hardware/tools/openfc_netlist_extract.py:235-236 | reference definition of `is_ic`: `U` followed by one or more ASCII digits |
| Netlist.Kv | hardware/tools/openfc_netlist_extract.py:89-92 | `_kv` yields a pair exactly for a two-element list of two atoms, and the pair is those atoms |
| Netlist.FindSections | hardware/tools/openfc_netlist_extract.py:95-104 | fails with "expected (export ...)" exactly when the root is not a non-empty list headed `export`; otherwise returns the section map |
| Netlist.SectionsFirstMatch | hardware/tools/openfc_netlist_extract.py:99-103 | a key is present exactly when some child list has it as head, and the stored section is the first such child |
| Netlist.SectionsAreLists | hardware/tools/openfc_netlist_extract.py:100-103 | every stored section is a list headed by its key |
| Netlist.ReadField | hardware/tools/openfc_netlist_extract.py:161-168 | the field loop yields the last `(name X)` pair's value and the last bare atom |
| Netlist.ReadProperty | hardware/tools/openfc_netlist_extract.py:172-180 | the property loop yields the last `(name X)` and the last `(value Y)` |
| Netlist.ReadFields | hardware/tools/openfc_netlist_extract.py:158-170 | a `(fields ...)` child changes only the field map, as the fold of its fields |
| Netlist.ReadLibsource | hardware/tools/openfc_netlist_extract.py:187-194 | a `(libsource ...)` child updates the component as the libsource fold |
| Netlist.ReadComp | hardware/tools/openfc_netlist_extract.py:139-194 | the loop over one comp record builds the reference component, and the tracked ref is its ref |
| Netlist.ParseComponents | hardware/tools/openfc_netlist_extract.py:134-197 | parse_components returns exactly the reference registry of the section's children |
| Netlist.ScalarStep | hardware/tools/openfc_netlist_extract.py:142-156 | one child sets ref, value, footprint, datasheet or description only when it is a `(key value)` pair with that key |
| Netlist.ScalarAttributesLastWins | hardware/tools/openfc_netlist_extract.py:142-156 | each scalar attribute is the value of the last pair with its key, or its old value |
| Netlist.PropertyStep | hardware/tools/openfc_netlist_extract.py:171-182 | one child changes the property named `name` only when it is a property record with that non-empty name |
| Netlist.PropertiesLastWins | hardware/tools/openfc_netlist_extract.py:171-186 | a non-empty property name is present exactly when it was or some property record names it, and its value is the last such record's |
| Netlist.FieldsFoldNoEmptyName | hardware/tools/openfc_netlist_extract.py:169-170 | fields with an empty name are never stored |
| Netlist.FieldsFoldLastWins | hardware/tools/openfc_netlist_extract.py:159-170 | within one `(fields ...)` child, the last field with a name wins |
| Netlist.FieldsStep | hardware/tools/openfc_netlist_extract.py:157-170 | only a `(fields ...)` child changes the field map |
| Netlist.FieldsLastWins | hardware/tools/openfc_netlist_extract.py:157-170 | across all children, a field name is present exactly when it was or some field declares it, with the last declaration's text |
| Netlist.LibsourceFoldKeeps | hardware/tools/openfc_netlist_extract.py:187-194 | a libsource child changes only lib and part |
| Netlist.ConsistentStep | hardware/tools/openfc_netlist_extract.py:141-194 | one child keeps the component consistent: no empty field or property name, and sheetname/sheetfile mirror the properties |
| Netlist.ApplySubsConsistent | hardware/tools/openfc_netlist_extract.py:169-186 | a whole comp record keeps that consistency: empty names are never stored, and `Sheetname`/`Sheetfile` are mirrored into their attributes |
| Netlist.RegistryKeys | hardware/tools/openfc_netlist_extract.py:137-196 | a ref is registered exactly when it is non-empty and some comp record declares it; comps without a ref are dropped |
| Netlist.RegistryLastWins | hardware/tools/openfc_netlist_extract.py:195-196 | the registered component is the one built from the last comp record with that ref |
| Netlist.RegistryConsistent | hardware/tools/openfc_netlist_extract.py:145-147 | every registered component carries its key as its ref and is consistent |
| Netlist.ReadNode | hardware/tools/openfc_netlist_extract.py:221-225 | a node record becomes the map of its pairs |
| Netlist.NodeAttrsLastWins | hardware/tools/openfc_netlist_extract.py:222-225 | a node key is present exactly when some pair has it, with the last such pair's value |
| Netlist.ReadNet | hardware/tools/openfc_netlist_extract.py:205-228 | the loop over one net record builds the reference net |
| Netlist.ParseNets | hardware/tools/openfc_netlist_extract.py:200-229 | parse_nets returns exactly the reference net list |
| Netlist.NetFoldShape | hardware/tools/openfc_netlist_extract.py:208-227 | a net keeps one node per node record with both ref and pin, only such nodes, and its name is the last name pair |
| Netlist.NetsShape | hardware/tools/openfc_netlist_extract.py:202-228 | one net per net record, and every kept node has ref and pin |
| Netlist.LinkNode | hardware/tools/openfc_netlist_extract.py:266-272 | one node of the cross-link updates the registry as the reference step |
| Netlist.LinkNet | hardware/tools/openfc_netlist_extract.py:264-272 | the inner cross-link loop applies the net's links in order |
| Netlist.CrossLink | hardware/tools/openfc_netlist_extract.py:263-272 | the cross-link loop applies all nets' links in order |
| Netlist.LinkAllAppend | hardware/tools/openfc_netlist_extract.py:263-272 | linking two runs of nodes one after the other is linking their concatenation |
| Netlist.LinkOneAt | hardware/tools/openfc_netlist_extract.py:268-272 | a node sets `connections[pin]` only for a known, non-empty ref and a non-empty pin, and sets `pinfunctions[pin]` only when it carries one |
| Netlist.CrossLinkKeepsRegistry | hardware/tools/openfc_netlist_extract.py:268-272 | the cross-link leaves the registry's key set and every non-link attribute unchanged |
| Netlist.ConnectionsLastWins | hardware/tools/openfc_netlist_extract.py:270 | a pin's net is the name of the last net that has a node for that ref and pin (a later net overwrites) |
| Netlist.PinfunctionsLastWins | hardware/tools/openfc_netlist_extract.py:271-272 | a pin's function is the one of the last such node that carries a pinfunction |
| Netlist.ExtractNetlist | hardware/tools/openfc_netlist_extract.py:252-272 | fails exactly on a bad root or a missing components or nets section; otherwise gives the parsed nets and the cross-linked registry |
| Pcb.PadOf | hardware/tools/openfc_pcb_extract.py:99-113 | reference definition of the pad a pad record describes: its number, then the net, pinfunction and pintype children folded in order |
| Pcb.FootprintOf | hardware/tools/openfc_pcb_extract.py:77-113 | reference definition of the footprint a footprint record describes: its id, then the property and pad children folded in order |
| Pcb.NetTable | hardware/tools/openfc_pcb_extract.py:62-72 | reference definition of `nets_by_id`: the top-level well-formed net records, a later id overwriting an earlier one |
| Pcb.Footprints | hardware/tools/openfc_pcb_extract.py:63-116 | reference definition of the emitted footprint list: the footprint records in order, each kept only when it has a non-empty ref |
| Pcb.IsIcRef | hardware/tools/openfc_pcb_extract.py:121-122 | reference definition of `re.match(r"^U\d+$", ref)`: `U`, a run of digits to the end, or to a final newline, which `$` also accepts |
| Pcb.KvStr | hardware/tools/openfc_pcb_extract.py:39-42 | `_kv_str` yields a pair exactly for a list of at least two elements whose first two are atoms, and the pair is those atoms |
| Pcb.KvStrExtendsKv | hardware/tools/openfc_pcb_extract.py:39-42 | `_kv_str` agrees with `_kv` where `_kv` succeeds, and also accepts longer lists |
| Pcb.ExtractProperty | hardware/tools/openfc_pcb_extract.py:45-53 | yields a property exactly for a list of length at least 3 headed `property` with a non-empty atom name; a non-atom value becomes "" |
| Pcb.ReadPad | hardware/tools/openfc_pcb_extract.py:99-113 | the pad loop builds the reference pad |
| Pcb.PadFoldLastWins | hardware/tools/openfc_pcb_extract.py:101-112 | the pad number is never changed; net id and name come from the last well-formed inline net record, or are left alone; pinfunction and pintype come from the last such record |
| Pcb.PadFields | hardware/tools/openfc_pcb_extract.py:99-112 | the pad number is "" when missing or not an atom; with no inline net the name is "" and the id None; otherwise both come from the last inline net record, never from the id table |
| Pcb.PadChildren | hardware/tools/openfc_pcb_extract.py:94-97 | every selected child is a pad record |
| Pcb.ReadFootprint | hardware/tools/openfc_pcb_extract.py:77-113 | the footprint loop builds the reference footprint |
| Pcb.FootprintFoldProperties | hardware/tools/openfc_pcb_extract.py:83-92 | each named property holds the last value given for it; ref and value mirror `Reference` and `Value` |
| Pcb.FootprintFoldPads | hardware/tools/openfc_pcb_extract.py:96-113 | every pad child yields exactly one pad, in order |
| Pcb.FootprintOfSpec | hardware/tools/openfc_pcb_extract.py:77-113 | the id is item[1] or ""; the ref is the last `Reference`; properties are last-wins; one pad per pad child, in order |
| Pcb.ParseBoard | hardware/tools/openfc_pcb_extract.py:59-118 | fails exactly when the root is not a non-empty list headed `kicad_pcb`; otherwise returns the emitted footprints and the net id table |
| Pcb.NetTableLastWins | hardware/tools/openfc_pcb_extract.py:68-72 | an id is in the table exactly when some top-level net record with atom id and name has it, with the last one's name (duplicates overwrite) |
| Pcb.FootprintsInOrder | hardware/tools/openfc_pcb_extract.py:65-116 | footprints are emitted in document order |
| Pcb.FootprintsEmitted | hardware/tools/openfc_pcb_extract.py:115-116 | every emitted footprint has a non-empty ref, and at most one footprint is emitted per record |
| Pcb.DigitRunEnd | hardware/tools/openfc_pcb_extract.py:122 | the `\d+` scan stops at the first non-digit |
| Pcb.IsIcRefIff | hardware/tools/openfc_pcb_extract.py:121-122 | `^U\d+$` matches exactly the refs that `is_ic` accepts, plus those same refs followed by one trailing newline; without a newline the two tests agree |
| Pcb.CountPads | hardware/tools/openfc_pcb_extract.py:167-170 | after one footprint's pads, every non-empty net name is counted once per pad on it, and empty names are never counted |
| Pcb.NetCounts | hardware/tools/openfc_pcb_extract.py:165-170 | `net_counts` holds exactly the non-empty net names that have pads, each with the number of pads on it over all footprints |
| Ordering.StrLt | hardware/tools/openfc_connectivity_report.py:107 | reference definition of Python's `<` on `str`: lexicographic by code point, a proper prefix being smaller |
| Ordering.KeyLt | hardware/tools/openfc_connectivity_report.py:121 | reference definition of Python's `<` on tuples of `str`: lexicographic over StrLt |
| Ordering.SortBy | hardware/tools/openfc_connectivity_report.py:121 | reference definition of `sorted(xs, key=...)` as insertion sort, each element going after every element whose key is not greater (SortBySpec proves it sorted, a permutation and stable) |
| Ordering.LexIrreflexive | hardware/tools/openfc_connectivity_report.py:101 | the lexicographic order is irreflexive |
| Ordering.LexTransitive | hardware/tools/openfc_connectivity_report.py:101 | the lexicographic order is transitive |
| Ordering.LexTrichotomy | hardware/tools/openfc_connectivity_report.py:101 | the lexicographic order is total |
| Ordering.StrLtStrictTotal | hardware/tools/openfc_connectivity_report.py:107 | Python's string order, by code point, is a strict total order |
| Ordering.KeyLtStrictTotal | hardware/tools/openfc_connectivity_report.py:121 | the order on (ref, pad) tuples is a strict total order |
| Ordering.KeyOfOne | hardware/tools/openfc_connectivity_report.py:107 | comparing one-element keys is comparing the strings |
| Ordering.InsertSorted | hardware/tools/openfc_connectivity_report.py:121 | inserting into a sorted sequence keeps it sorted |
| Ordering.InsertMultiset | hardware/tools/openfc_connectivity_report.py:121 | inserting adds exactly the one element |
| Ordering.WithKeyAppend | hardware/tools/openfc_connectivity_report.py:121 | the elements with a given key of a concatenation are those of each part, in order |
| Ordering.InsertWithKey | hardware/tools/openfc_connectivity_report.py:121 | an inserted element goes after every element with an equal key |
| Ordering.SortBySpec | hardware/tools/openfc_connectivity_report.py:121 | the sort is sorted by key, a permutation of its input, and stable: elements with equal keys keep their input order |
| Ordering.SortByMembers | hardware/tools/openfc_connectivity_report.py:121 | the sort has exactly the input's elements |
| Connectivity.SheetFromNet | hardware/tools/openfc_connectivity_report.py:19-24 | reference definition of `sheet_from_net`: the first non-empty `/`-separated part of a name starting with `/`, otherwise `GLOBAL` |
| Connectivity.RowOf | hardware/tools/openfc_connectivity_report.py:85-93 | reference definition of the node row of a pad: the footprint ref, then the normalised value, footprint id, pad number and pin function |
| Connectivity.GroupInto | hardware/tools/openfc_connectivity_report.py:81-93 | reference definition of the grouping loop over one footprint's pads: each pad with a non-empty net appends its row under that net |
| Connectivity.Grouping | hardware/tools/openfc_connectivity_report.py:79-93 | reference definition of `net_nodes`: GroupInto over every footprint in order |
| Connectivity.NetOrder | hardware/tools/openfc_connectivity_report.py:79-93 | reference definition of the key order of the `net_nodes` defaultdict: connected net names in order of first appearance |
| Connectivity.SheetGroup | hardware/tools/openfc_connectivity_report.py:106-108 | reference definition of `by_sheet[s]`: the names whose sheet is s, in the given order |
| Connectivity.SheetOrder | hardware/tools/openfc_connectivity_report.py:106-108 | reference definition of the sheets of a list of names, in order of first appearance |
| Connectivity.NetView | hardware/tools/openfc_connectivity_report.py:122-137 | reference definition of the listing decision for one net: a summary when it has more than max_nodes nodes and is not expanded, otherwise the nodes shown (`nodes[:max_nodes]` when they do not fit) and the number left out |
| Connectivity.NetEntries | hardware/tools/openfc_connectivity_report.py:120-138 | reference definition of one sheet's entries: for each net, the view of its nodes sorted by (ref, pad) |
| Connectivity.Split | hardware/tools/openfc_connectivity_report.py:21 | reference definition of `str.split("/")`: the pieces between slashes, empty ones included, so there is always at least one (its inverse is shown in SplitJoin) |
| Connectivity.SplitJoin | hardware/tools/openfc_connectivity_report.py:21 | joining the parts with `/` gives back the string, and no part contains `/` |
| Connectivity.SkipSlashes | hardware/tools/openfc_connectivity_report.py:21 | the scan passes only `/` characters and stops at the next other character |
| Connectivity.NextSlash | hardware/tools/openfc_connectivity_report.py:21 | the scan passes no `/` and stops at the next `/` |
| Connectivity.SplitHead | hardware/tools/openfc_connectivity_report.py:21 | the first part is the text up to the first `/` |
| Connectivity.FirstPart | hardware/tools/openfc_connectivity_report.py:21-23 | there is no non-empty part exactly when only `/` characters remain, and otherwise the first non-empty part is the run after them |
| Connectivity.SheetFromNetSpec | hardware/tools/openfc_connectivity_report.py:19-24 | a name not starting with `/` gives `GLOBAL`; otherwise the result is the first non-empty segment, or `GLOBAL` if there is none; the result never contains `/` |
| Connectivity.ReplaceNewlines | hardware/tools/openfc_connectivity_report.py:28 | reference definition of `replace("\n", " ")`: each newline becomes a space, every other character is kept, so the length is unchanged |
| Connectivity.StripStart | hardware/tools/openfc_connectivity_report.py:28 | the left strip passes only whitespace and stops at the first non-space |
| Connectivity.StripEnd | hardware/tools/openfc_connectivity_report.py:28 | the right strip passes only whitespace and stops after the last non-space |
| Connectivity.Strip | hardware/tools/openfc_connectivity_report.py:28 | the result is a slice with only whitespace on either side of it, and it neither starts nor ends with whitespace |
| Connectivity.Norm | hardware/tools/openfc_connectivity_report.py:27-28 | `norm`'s output contains no newline and has no leading or trailing whitespace |
| Connectivity.StripOfStripped | hardware/tools/openfc_connectivity_report.py:28 | stripping a string with no surrounding whitespace changes nothing |
| Connectivity.NormIdempotent | hardware/tools/openfc_connectivity_report.py:27-28 | `norm` is idempotent |
| Connectivity.AddNode | hardware/tools/openfc_connectivity_report.py:85-93 | `net_nodes[net].append(row)` on the defaultdict: the row goes at the end of the net's list, and a new net is added at the end of the key order |
| Connectivity.AddPad | hardware/tools/openfc_connectivity_report.py:81-93 | a pad with an empty net name is skipped; any other adds its node under its net |
| Connectivity.GroupPadStep | hardware/tools/openfc_connectivity_report.py:81-93 | the grouping over one more pad is one AddPad step |
| Connectivity.GroupPads | hardware/tools/openfc_connectivity_report.py:81-93 | the pad loop of one footprint computes the reference grouping and key order |
| Connectivity.GroupByNet | hardware/tools/openfc_connectivity_report.py:79-93 | the key order is the reference one; the keys are exactly the non-empty net names that have pads; each net's list is its nodes, footprints in order and pads in order |
| Connectivity.AppendAt | hardware/tools/openfc_connectivity_report.py:85 | appending under one key changes only that key's list |
| Connectivity.GroupIntoAt | hardware/tools/openfc_connectivity_report.py:81-93 | for one net, a footprint's pads add exactly its rows on that net |
| Connectivity.GroupIntoSpec | hardware/tools/openfc_connectivity_report.py:81-93 | the same for all nets at once |
| Connectivity.GroupingSpec | hardware/tools/openfc_connectivity_report.py:79-93 | the grouping holds exactly the connected nets, each with its nodes |
| Connectivity.PadsOnAppend | hardware/tools/openfc_pcb_extract.py:165-170 | pad counts add up over concatenation |
| Connectivity.PadRowsCount | hardware/tools/openfc_connectivity_report.py:81-93 | a footprint contributes one node per pad on the net: as many as there are such pads, each from such a pad, and every such pad's node |
| Connectivity.NodesOfSpec | hardware/tools/openfc_connectivity_report.py:79-93 | a net has exactly one node per pad on it, over all footprints; its size is that net's pad count |
| Connectivity.AddNetsSpec | hardware/tools/openfc_connectivity_report.py:85 | the key order stays duplicate-free and gains exactly the non-empty net names of the pads |
| Connectivity.NetOrderSpec | hardware/tools/openfc_connectivity_report.py:79-93 | the key order is duplicate-free and lists exactly the connected nets |
| Connectivity.HitsDistinct | hardware/tools/openfc_connectivity_report.py:79-93 | a name occurs at most once in the duplicate-free key order |
| Connectivity.SumPadsOnStep | hardware/tools/openfc_connectivity_report.py:81-93 | one more pad adds one to the total exactly when its net is listed |
| Connectivity.SumPadsOnAny | hardware/tools/openfc_connectivity_report.py:79-93 | over distinct names, the sum of the per-net counts is the number of pads on any of them |
| Connectivity.SumPadsOnEmpty | hardware/tools/openfc_connectivity_report.py:79-93 | no pads means no nodes |
| Connectivity.PadsOnAnyConnected | hardware/tools/openfc_connectivity_report.py:82-84 | when the listed nets are exactly the non-empty ones, the pads on them are the connected pads |
| Connectivity.PadsOnPositive | hardware/tools/openfc_connectivity_report.py:82-85 | every pad's net has at least one pad |
| Connectivity.TotalNodes | hardware/tools/openfc_connectivity_report.py:79-93 | the total node count over all nets equals the number of pads with a non-empty net name |
| Connectivity.BySheet | hardware/tools/openfc_connectivity_report.py:106-108 | `by_sheet` maps each sheet to its nets in the given order, and its keys are exactly the sheets that occur |
| Connectivity.SheetMapSpec | hardware/tools/openfc_connectivity_report.py:106-108 | each sheet's list is its group of nets, and a sheet that does not occur has no nets |
| Connectivity.SheetGroupMembers | hardware/tools/openfc_connectivity_report.py:107-108 | a sheet's group is exactly the nets whose sheet it is |
| Connectivity.SheetGroupSpec | hardware/tools/openfc_connectivity_report.py:107-108 | a sheet's group is exactly its nets, and it is sorted when the names are |
| Connectivity.SheetOrderSpec | hardware/tools/openfc_connectivity_report.py:106-108 | the sheets are listed without duplicates, exactly the sheets of the names |
| Connectivity.SliceTo | hardware/tools/openfc_connectivity_report.py:131 | Python's `nodes[:m]` is a prefix, for any integer m |
| Connectivity.NetViewSpec | hardware/tools/openfc_connectivity_report.py:122-137 | a net gets only a summary exactly when it has more than max_nodes nodes and is not expanded; otherwise the shown nodes are a prefix: all of them when they fit, the first max_nodes when not; the reported remainder is count minus shown |
| Connectivity.ListSheet | hardware/tools/openfc_connectivity_report.py:120-138 | the loop over one sheet's nets yields exactly the reference entries, each over the net's nodes sorted by (ref, pad) |
| Connectivity.Sections | hardware/tools/openfc_connectivity_report.py:117-138 | one section per sheet, in the given sheet order, each holding that sheet's nets |
| Connectivity.ListSections | hardware/tools/openfc_connectivity_report.py:117-138 | the loop over the sheets yields exactly the reference sections |
| Connectivity.SectionsStep | hardware/tools/openfc_connectivity_report.py:117-138 | one more sheet adds exactly its section |
| Connectivity.SheetListing | hardware/tools/openfc_connectivity_report.py:106-138 | the listing has one section per sheet, in sorted order, each with its nets in sorted order |
| Connectivity.ListingSpec | hardware/tools/openfc_connectivity_report.py:106-121 | sheets are sorted and distinct; every net's sheet is listed; a sheet's group is exactly its nets, sorted |
| Connectivity.DistinctCount | hardware/tools/openfc_connectivity_report.py:107 | duplicate-free key lists hold each name at most once |
| EdgeCuts.IsNumber | tools/set_edgecuts_width.py:13 | reference definition of the number group `[-+]?[0-9]*\.?[0-9]+`: an optional sign, then digits with at most one `.`, ending in a digit |
| EdgeCuts.MatchWidth | tools/set_edgecuts_width.py:13 | reference definition of `WIDTH_LINE_RE.match`: `\s*(width`, at least one whitespace, a number running up to whitespace or a paren, then `\s*)\s*` to the end; the three groups when it matches |
| EdgeCuts.IsGrStart | tools/set_edgecuts_width.py:11 | reference definition of `GR_START_RE.match`: optional whitespace, `(gr_`, a word character (`\b` then always holds after the longest word run) |
| EdgeCuts.HasEdgeCuts | tools/set_edgecuts_width.py:12 | reference definition of `LAYER_EDGE_CUTS in line`: the text `(layer "Edge.Cuts")` occurs somewhere in the line |
| EdgeCuts.HasStrokeStart | tools/set_edgecuts_width.py:14 | reference definition of `STROKE_START_RE.search`: a `(`, optional whitespace, then `stroke` not followed by a word character |
| EdgeCuts.ParenDelta | tools/set_edgecuts_width.py:49 | reference definition of `line.count("(") - line.count(")")` |
| EdgeCuts.Rewrite | tools/set_edgecuts_width.py:40-45 | reference definition of the width-line rewrite: a matching line becomes group 1, the width text, group 3; any other line is kept |
| EdgeCuts.SpaceEnd | tools/set_edgecuts_width.py:13 | `\s*` stops at the first non-space |
| EdgeCuts.SpaceEndRun | tools/set_edgecuts_width.py:13 | everything `\s*` passes is whitespace |
| EdgeCuts.SpaceEndAt | tools/set_edgecuts_width.py:13 | a whitespace run followed by a non-space is where `\s*` stops |
| EdgeCuts.StopAt | tools/set_edgecuts_width.py:13 | the number scan stops at the first whitespace or paren |
| EdgeCuts.StopAtIs | tools/set_edgecuts_width.py:13 | a run without whitespace or parens, then a stop, is where the scan stops |
| EdgeCuts.NumberIsWidthText | tools/set_edgecuts_width.py:13 | a number `[-+]?[0-9]*\.?[0-9]+` is non-empty and has no whitespace or paren |
| EdgeCuts.MatchWidthAt | tools/set_edgecuts_width.py:13 | once the scan positions are known, the matcher's result is decided by the number and suffix tests |
| EdgeCuts.MatchWidthEmpty | tools/set_edgecuts_width.py:13 | a line with an empty number group does not match |
| EdgeCuts.MatchedPrefix | tools/set_edgecuts_width.py:13 | the first group of a match is a `\s*\(width\s+` prefix |
| EdgeCuts.MatchedSuffix | tools/set_edgecuts_width.py:13 | the third group of a match is a `\s*\)\s*` suffix ending the line |
| EdgeCuts.MatchWidthSound | tools/set_edgecuts_width.py:13 | a match splits the line into its three groups, each of the shape the pattern demands |
| EdgeCuts.MatchWidthComplete | tools/set_edgecuts_width.py:13 | any prefix, number and suffix of those shapes is matched with exactly those groups |
| EdgeCuts.Rebuilt | tools/set_edgecuts_width.py:42 | putting paren-free, space-free text between a matched prefix and suffix gives a width line again exactly when the text is a number |
| EdgeCuts.RebuiltText | tools/set_edgecuts_width.py:42 | the same for non-empty text |
| EdgeCuts.RebuiltEmpty | tools/set_edgecuts_width.py:42 | with nothing between them, the line does not match |
| EdgeCuts.RebuiltScan | tools/set_edgecuts_width.py:42 | on a rebuilt line the matcher's scans stop at the boundaries of its three pieces |
| EdgeCuts.MatchWidthOfParts | tools/set_edgecuts_width.py:13 | a line whose scans stop at the boundaries of a prefix, text and suffix matches with exactly those pieces when the text is a number |
| EdgeCuts.PrefixShape | tools/set_edgecuts_width.py:13 | a width prefix holds one `(`, which is followed by `w`, and no `)` |
| EdgeCuts.SuffixShape | tools/set_edgecuts_width.py:13 | a width suffix holds one `)` and no `(`, and starts with a stop character |
| EdgeCuts.WidthLineBalanced | tools/set_edgecuts_width.py:49 | a width line with paren-free text has balance 0 |
| EdgeCuts.WidthLineParen | tools/set_edgecuts_width.py:11-14 | a width line's only `(` is the one of `(width` |
| EdgeCuts.OneParenNotGr | tools/set_edgecuts_width.py:11 | a line whose first non-space is `(w` does not start a gr_* block |
| EdgeCuts.OneParenNoTag | tools/set_edgecuts_width.py:12 | a line whose only `(` is followed by `w` names no Edge.Cuts layer |
| EdgeCuts.OneParenNoStroke | tools/set_edgecuts_width.py:14 | such a line opens no stroke |
| EdgeCuts.WidthLineClass | tools/set_edgecuts_width.py:11-14 | a width line with paren-free text is balanced and is neither a gr_* start, nor an Edge.Cuts line, nor a stroke opener |
| EdgeCuts.RewriteKeeps | tools/set_edgecuts_width.py:40-44 | a rewrite keeps the matched `(width` prefix and the closing suffix and replaces only the number; a non-matching line is kept |
| EdgeCuts.RewriteStable | tools/set_edgecuts_width.py:42-49 | with width text free of whitespace and parens, a rewritten line rewrites to itself, and its balance and all three classifications are unchanged |
| EdgeCuts.OpenLine | tools/set_edgecuts_width.py:11 | `(gr_line` starts a block and has balance 1 |
| EdgeCutsPass.BlockStep | tools/set_edgecuts_width.py:35-53 | reference definition of one iteration of `update_gr_block`: open a stroke region, rewrite inside it, count a change, add the emitted line's balance, close at or below the opening depth |
| EdgeCutsPass.GrBlock | tools/set_edgecuts_width.py:22-55 | reference definition of `update_gr_block`: unchanged with 0 changes when no line names Edge.Cuts, otherwise BlockRun's output and count |
| EdgeCutsPass.FileStep | tools/set_edgecuts_width.py:75-89 | reference definition of one iteration of `update_file`: start, extend or close a gr_* block at equal depth and flush it through GrBlock, or copy the line |
| EdgeCutsPass.FileRun | tools/set_edgecuts_width.py:74-89 | reference definition of the `update_file` loop as a left fold of FileStep |
| EdgeCutsPass.UpdatedFile | tools/set_edgecuts_width.py:58-94 | reference definition of `update_file`: the fold's lines and count, or UnclosedBlock (the ValueError) when a block is still open at the end |
| EdgeCutsPass.WidthStable | tools/set_edgecuts_width.py:42-49 | the tool's line syntax with such a width text is stable: every rewrite is a fixed point and is classified like its input |
| EdgeCutsPass.DiffCount | tools/set_edgecuts_width.py:43-45 | reference count of the indices where two equally long line lists differ, which is what `changes` counts; never more than the number of lines |
| EdgeCutsPass.DiffCountZero | tools/set_edgecuts_width.py:43-45 | no differing line counted means the outputs are equal |
| EdgeCutsPass.BlockRun | tools/set_edgecuts_width.py:34-53 | reference definition of the `update_gr_block` loop as a left fold of BlockStep over the lines; it emits one line per input line |
| EdgeCutsPass.BlockRunShape | tools/set_edgecuts_width.py:34-53 | each emitted line is its input line or that line rewritten, and `changes` is the number of lines that differ |
| EdgeCutsPass.GrBlockShape | tools/set_edgecuts_width.py:22-55 | the same for `update_gr_block`, including the early return |
| EdgeCutsPass.BlockLine | tools/set_edgecuts_width.py:35-47 | line k is rewritten exactly when a stroke region is open at it |
| EdgeCutsPass.StepEmits | tools/set_edgecuts_width.py:35-47 | the emitted line is rewritten when the region was open or the line opens one |
| EdgeCutsPass.GrBlockSpec | tools/set_edgecuts_width.py:23-47 | a block with no Edge.Cuts line is returned unchanged with 0 changes; otherwise only lines inside a stroke region are rewritten |
| EdgeCutsPass.BlockOutPrefix | tools/set_edgecuts_width.py:34-47 | the output after k lines is the first k output lines |
| EdgeCutsPass.BlockDepth | tools/set_edgecuts_width.py:49 | `local_depth` is the balance of the emitted lines, which, with a stable syntax, is that of the input |
| EdgeCutsPass.BlockIdempotent | tools/set_edgecuts_width.py:34-53 | running the block pass on its own output gives the same output with 0 changes |
| EdgeCutsPass.GrBlockIdempotent | tools/set_edgecuts_width.py:22-55 | `update_gr_block` on its own output yields it again with 0 changes |
| EdgeCutsPass.BlockRunStep | tools/set_edgecuts_width.py:34-53 | the pass over k+1 lines is one step after the pass over k |
| EdgeCutsPass.UpdateGrBlock | tools/set_edgecuts_width.py:22-55 | `update_gr_block` computes exactly the reference block result |
| EdgeCutsPass.StrokeLine | tools/set_edgecuts_width.py:35-53 | one iteration opens a region at a stroke opener, rewrites inside it, moves the depth by the emitted line's balance and closes at or below the opening depth |
| EdgeCutsPass.EmitLine | tools/set_edgecuts_width.py:39-46 | the emitted line is the rewrite inside a region, and the change flag says whether it differs |
| EdgeCutsPass.AdvanceLine | tools/set_edgecuts_width.py:47-53 | the bookkeeping after emitting a line follows the reference step |
| EdgeCutsPass.RewriteWidth | tools/set_edgecuts_width.py:40-45 | the width-line rewrite, and whether it changed the line |
| EdgeCutsPass.UpdateFile | tools/set_edgecuts_width.py:58-94 | `update_file` computes exactly the reference outcome: new lines and change count, or the unclosed-block error |
| EdgeCutsPass.FileLine | tools/set_edgecuts_width.py:75-89 | one iteration of `update_file`'s loop is the reference step |
| EdgeCutsPass.FlushBlock | tools/set_edgecuts_width.py:67-72 | `flush_block` appends the block's updated lines and adds its change count |
| EdgeCutsPass.JoinStep | tools/set_edgecuts_width.py:75-89 | a line inside a block, or one starting a block, is collected; the block closes exactly when the depth is back at its opening depth, and is then flushed |
| EdgeCutsPass.CopyStep | tools/set_edgecuts_width.py:81-84 | a line outside every block that starts none is copied out as it is |
| EdgeCutsPass.StepExtends | tools/set_edgecuts_width.py:74-89 | the output only grows |
| EdgeCutsPass.FileOutPrefix | tools/set_edgecuts_width.py:74-89 | the output after k lines is a prefix of the final output |
| EdgeCutsPass.FileRunShape | tools/set_edgecuts_width.py:74-89 | the output is related to a prefix of the input with the exact change count, and an open block holds the rest of the input |
| EdgeCutsPass.FileRunLengths | tools/set_edgecuts_width.py:74-92 | the output and the open block together have one line per input line |
| EdgeCutsPass.UpdatedFileSpec | tools/set_edgecuts_width.py:58-94 | on success the output has one line per input line, each the input line or its rewrite, and the change count is the number of lines that differ |
| EdgeCutsPass.OutsideUnchanged | tools/set_edgecuts_width.py:81-82 | lines outside every gr_* block are copied unchanged |
| EdgeCutsPass.FileDepth | tools/set_edgecuts_width.py:84 | `global_depth` is the balance of the lines read so far |
| EdgeCutsPass.SameClass | tools/set_edgecuts_width.py:42-49 | a rewritten line is classified and balanced like the original |
| EdgeCutsPass.FileIdempotent | tools/set_edgecuts_width.py:58-94 | with a stable syntax, running `update_file` on its own output succeeds with the same lines and 0 changes |
| EdgeCutsPass.WidthIdempotent | tools/set_edgecuts_width.py:58-94 | re-running the tool on its output with the same width text changes nothing |
| EdgeCutsPass.UnclosedExample | tools/set_edgecuts_width.py:91-92 | a gr_* block still open at the end raises the unclosed-block error |

## Left out

- Parser.ParseOne (and the reference Parser.ParseNode): does not model Python's recursion limit. `parse_one` calls itself once per nesting level (hardware/tools/openfc_netlist_extract.py:77). Under CPython's default limit, input nested about 1000 lists deep therefore raises `RecursionError`, which is not a `ParseError`. The model parses lists of any depth and has no such error.
- File reading and writing, `argparse`, the backups and the CSV, JSON and Markdown emitters of each `main`. They are I/O and formatting. The Markdown listing is modelled as the sequence of sections and net entries it prints.
- `POWER_NET_RE` (openfc_netlist_extract.py:232), the CSV sort key of the component table (line 279), and the IC list and per-sheet IC JSON that `main` builds after the cross-link. These are output formatting over the modelled registry.
- `compile_patterns` and `matches_any` (openfc_connectivity_report.py:31-39). Whether a net is expanded is taken as a given predicate on net names.
- `_format_width` (set_edgecuts_width.py:17-19) is float formatting. The width text is a parameter. Idempotence is proved for width text free of whitespace and parentheses, which `f"{x:g}"` always produces.
- The `main` of openfc_pcb_extract.py beyond the `net_counts` loop: the footprint CSV and the IC pin table. These are output formatting.
- Character classes:
  - `\d` in `is_ic_ref` and `str.isdigit` in `is_ic` are modelled as ASCII digits. Python also accepts other Unicode digits.
  - `\w` in `GR_START_RE` and `STROKE_START_RE` is modelled as ASCII letters, digits and `_`. Python's `\w` on `str` is Unicode-aware.
  - Whitespace (`\s`, `isspace`, `strip`) is the exact CPython set.
- Objects are modelled as values. Components, pads and footprints are records, and each pass returns its new state. The source's in-place updates are never observed through an alias, so no behaviour is lost.
- `stroke_start_depth` and `block_start_depth` are modelled as an `int` paired with the `in_stroke`/`in_block` flag. In the source they are `None` exactly when the flag is false, so the `is not None` tests never decide anything.
- Reading the board file and calling the tokenizer and parser inside `parse_board` (openfc_pcb_extract.py:57-58) are not repeated: `ParseBoard` starts from the parsed root.
- The `sys.path` manipulation and cross-module imports are not part of this model.
