/** Building component trees from JSON, and what becomes of parsed trees that are copied and destroyed. */
module ComponentParser {
  import opened Optional
  import opened Component

  /** What the JSON of a component holds, as far as it is read: each field may be missing or of another
      type, and a missing list is read like an empty one. */
  datatype OptionJson = OptionJson(caption: Str, value: Str, description: Str, preset: Option<bool>)

  datatype Json = Json(
    kind: Option<int>, style: Option<int>, caption: Str, customId: Str, url: Str, placeholder: Str, value: Str,
    disabled: Option<bool>, required: Option<bool>, minValues: Option<int>, maxValues: Option<int>,
    minLength: Option<int>, maxLength: Option<int>, options: seq<OptionJson>, components: seq<Json>)

  /** At most this much of a string is kept. */
  const STRING_LIMIT: nat := 4097

  const ACTION_ROW := 1
  const BUTTON := 2
  const SELECT_MENU := 3
  const TEXT_INPUT := 4

  function Or<T>(o: Option<T>, default: T): T {
    match o case None => default case Some(x) => x
  }

  // ---------- What is read ----------

  function ReadOption(j: OptionJson): OptionTree {
    Choice(Cut(j.caption, STRING_LIMIT), Cut(j.value, STRING_LIMIT), Cut(j.description, STRING_LIMIT), false,
           Or(j.preset, false))
  }

  function ReadOptions(js: seq<OptionJson>): seq<OptionTree> {
    if js == [] then [] else ReadOptions(js[..|js| - 1]) + [ReadOption(js[|js| - 1])]
  }

  function ReadButton(j: Json): ButtonTree {
    ButtonTree(Or(j.style, 1), Cut(j.caption, STRING_LIMIT), false, Cut(j.customId, STRING_LIMIT),
               Cut(j.url, STRING_LIMIT), Or(j.disabled, false))
  }

  function ReadMenu(j: Json): MenuTree {
    MenuTree(Cut(j.customId, STRING_LIMIT), |j.options|, ReadOptions(j.options), Cut(j.placeholder, STRING_LIMIT),
             MenuPlain(Or(j.minValues, 1), Or(j.maxValues, 1), Or(j.disabled, false)))
  }

  function ReadInput(j: Json): InputTree {
    InputTree(Cut(j.customId, STRING_LIMIT), Cut(j.caption, STRING_LIMIT), Cut(j.value, STRING_LIMIT),
              Cut(j.placeholder, STRING_LIMIT),
              InputPlain(Or(j.style, 1), Or(j.minLength, 0), Or(j.maxLength, 1), Or(j.required, false)))
  }

  function Read(j: Json): Tree
    decreases j
  {
    var kind := Or(j.kind, 0);
    if kind == ACTION_ROW then RowOf(|j.components|, ReadAll(j.components))
    else if kind == BUTTON then ButtonOf(ReadButton(j))
    else if kind == SELECT_MENU then MenuOf(ReadMenu(j))
    else if kind == TEXT_INPUT then InputOf(ReadInput(j))
    else Unknown(kind)
  }

  function ReadAll(js: seq<Json>): (r: seq<Tree>)
    decreases js
  {
    if js == [] then [] else ReadAll(js[..|js| - 1]) + [Read(js[|js| - 1])]
  }

  /** A string of the JSON as it is kept on the heap. */
  predicate Kept(o: Str, t: Text?) {
    CutTo(o, if t == null then None else Some(t.chars), 4097)
  }

  // ---------- Options ----------

  method ParseText(o: Str) returns (r: Text?)
    ensures fresh(Objects(r)) && Chars(r) == Cut(o, STRING_LIMIT) && Kept(o, r)
  {
    if o.None? {
      return null;
    }
    r := new Text(if STRING_LIMIT < |o.value| then o.value[..STRING_LIMIT] else o.value);
  }

  method ParseOption(j: OptionJson, ghost live: set<object>)
    returns (c: SelectOption, ghost t: OptionShape, ghost after: set<object>)
    ensures OptionHolds(t) && t.OptionAt? && OptionRoot(t) == c && OptionSeparate(t)
    ensures live <= after && fresh(after - live) && OptionFootprint(t) <= after - live
    ensures OptionContent(t) == ReadOption(j)
    ensures Kept(j.caption, c.caption) && Kept(j.value, c.value) && Kept(j.description, c.description)
    ensures c.emoji == null && c.preset == (j.preset == Some(true))
  {
    var caption := ParseText(j.caption);
    var value := ParseText(j.value);
    var description := ParseText(j.description);
    var preset := Or(j.preset, false);
    c := new SelectOption(caption, value, description, null, preset);
    t := OptionAt(c, caption, value, description, null, preset);
    after := live + OptionFootprint(t);
  }

  ghost predicate OptionsParsed(js: seq<OptionJson>, ts: seq<OptionShape>) {
    && |ts| == |js| && OptionsHold(ts) && OptionsSeparate(ts) && OptionContents(ts) == ReadOptions(js)
    && forall k :: 0 <= k < |ts| ==> ts[k].OptionAt?
  }

  lemma OneMoreOptionParsed(js: seq<OptionJson>, ts: seq<OptionShape>, j: OptionJson, t: OptionShape)
    requires OptionsParsed(js, ts) && OptionHolds(t) && t.OptionAt? && OptionSeparate(t)
    requires OptionsFootprint(ts) !! OptionFootprint(t) && OptionContent(t) == ReadOption(j)
    ensures OptionsParsed(js + [j], ts + [t])
    ensures OptionsFootprint(ts + [t]) == OptionsFootprint(ts) + OptionFootprint(t)
    ensures OptionRoots(ts + [t]) == OptionRoots(ts) + [OptionRoot(t)]
  {
    OptionsExtended(ts, t);
    assert (js + [j])[..|js|] == js;
  }

  /** One round of the loop of `ParseOptions`. */
  method ParseOptionAt(js: seq<OptionJson>, i: nat, dst: array<SelectOption?>, ghost ts: seq<OptionShape>,
                       ghost live: set<object>, ghost before: set<object>)
    returns (ghost t: OptionShape, ghost after: set<object>)
    requires i < |js| == dst.Length && OptionsParsed(js[..i], ts) && OptionsAccounted(ts, dst, live, before)
    modifies dst
    ensures dst[..] == old(dst[..])[i := OptionRoot(t)]
    ensures OptionsParsed(js[..i + 1], ts + [t]) && OptionRoots(ts + [t]) == OptionRoots(ts) + [OptionRoot(t)]
    ensures OptionsAccounted(ts + [t], dst, live, after) && before <= after && fresh(after - before)
  {
    SliceByOne(js, i);
    var x;
    x, t, after := ParseOption(js[i], before);
    dst[i] := x;
    OneMoreOptionParsed(js[..i], ts, js[i], t);
  }

  /** A list is read into an array of its elements, or into none if it is empty. */
  method ParseOptions(js: seq<OptionJson>, ghost live: set<object>)
    returns (dst: array?<SelectOption?>, ghost ts: seq<OptionShape>, ghost after: set<object>)
    ensures (dst != null <==> |js| > 0) && (dst != null ==> dst[..] == OptionRoots(ts)) && OptionsParsed(js, ts)
    ensures live <= after && fresh(after - live) && Objects(dst) <= after - live
    ensures OptionsFootprint(ts) <= after - live - Objects(dst)
  {
    if |js| <= 0 {
      return null, [], live;
    }
    dst := new SelectOption?[|js|](_ => null);
    ts, after := [], live + {dst};
    for i := 0 to |js|
      invariant dst[..i] == OptionRoots(ts) && OptionsParsed(js[..i], ts)
      invariant OptionsAccounted(ts, dst, live, after) && fresh(after - live)
    {
      ghost var t;
      t, after := ParseOptionAt(js, i, dst, ts, live, after);
      ts := ts + [t];
    }
    assert js[..|js|] == js;
  }

  // ---------- Components ----------

  /** What a parsed tree `t` is, apart from its objects being new. */
  ghost predicate IsParse(j: Json, t: Shape)
    reads Footprint(t)
  {
    Holds(t) && Separate(t) && ArraysAreCounted(t) && Complete(t) && Content(t) == Read(j)
  }

  ghost predicate AreParses(js: seq<Json>, ts: seq<Shape>)
    reads FootprintAll(ts)
  {
    && |ts| == |js| && HoldsAll(ts) && SeparateAll(ts) && Contents(ts) == ReadAll(js)
    && forall k :: 0 <= k < |ts| ==> ArraysAreCounted(ts[k]) && Complete(ts[k])
  }

  /** The objects in existence, before and after: the new ones include all of the tree. */
  ghost predicate New(t: Shape, live: set<object>, after: set<object>) {
    live <= after && Footprint(t) <= after - live
  }

  ghost predicate AllNew(ts: seq<Shape>, dst: object, live: set<object>, after: set<object>) {
    live <= after && dst in after - live && FootprintAll(ts) <= after - live - {dst}
  }

  method ParseButton(j: Json, ghost live: set<object>)
    returns (c: Component, ghost t: Shape, ghost after: set<object>)
    requires Or(j.kind, 0) == BUTTON
    ensures Root(t) == c && IsParse(j, t) && New(t, live, after) && fresh(after - live)
    ensures c.comp.ToButton? && var b := c.comp.button;
      && Kept(j.caption, b.caption) && Kept(j.customId, b.customId) && Kept(j.url, b.url) && b.emoji == null
      && b.style == (if j.style.Some? then j.style.value else 1) && b.disabled == (j.disabled == Some(true))
  {
    var style, disabled := Or(j.style, 1), Or(j.disabled, false);
    var caption := ParseText(j.caption);
    var customId := ParseText(j.customId);
    var url := ParseText(j.url);
    var b := new Button(style, caption, null, customId, url, disabled);
    c := new Component(ToButton(b));
    t := Press(c, ButtonShape(b, style, caption, null, customId, url, disabled));
    after := live + Footprint(t);
  }

  method ParseInput(j: Json) returns (c: TextInput, ghost t: InputShape)
    ensures InputHolds(t) && t.input == c && fresh(InputFootprint(t)) && InputSeparate(t)
    ensures InputContent(t) == ReadInput(j)
    ensures Kept(j.customId, c.customId) && Kept(j.caption, c.caption) && Kept(j.value, c.value)
    ensures Kept(j.placeholder, c.placeholder)
    ensures c.plain.style == (if j.style.Some? then j.style.value else 1)
    ensures c.plain.required == (j.required == Some(true))
    ensures c.plain.minLength == (if j.minLength.Some? then j.minLength.value else 0)
    ensures c.plain.maxLength == (if j.maxLength.Some? then j.maxLength.value else 1)
  {
    var plain := InputPlain(Or(j.style, 1), Or(j.minLength, 0), Or(j.maxLength, 1), Or(j.required, false));
    var customId := ParseText(j.customId);
    var caption := ParseText(j.caption);
    var value := ParseText(j.value);
    var placeholder := ParseText(j.placeholder);
    c := new TextInput(customId, caption, value, placeholder, plain);
    t := InputShape(c, customId, caption, value, placeholder, plain);
  }

  method WrapParsedInput(j: Json, ghost live: set<object>)
    returns (c: Component, ghost t: Shape, ghost after: set<object>)
    requires Or(j.kind, 0) == TEXT_INPUT
    ensures Root(t) == c && IsParse(j, t) && New(t, live, after) && fresh(after - live)
  {
    ghost var u;
    var i;
    i, u := ParseInput(j);
    c := new Component(ToInput(i));
    t := Input(c, u);
    after := live + Footprint(t);
  }

  /** The strings and the plain fields of a menu are those of the JSON, or their defaults. */
  predicate MenuAsGiven(j: Json, m: SelectMenu) {
    && Kept(j.customId, m.customId) && Kept(j.placeholder, m.placeholder) && m.count == |j.options|
    && m.plain.minValues == (if j.minValues.Some? then j.minValues.value else 1)
    && m.plain.maxValues == (if j.maxValues.Some? then j.maxValues.value else 1)
    && m.plain.disabled == (j.disabled == Some(true))
  }

  /** A menu with its strings, given its options. */
  method NewParsedMenu(j: Json, options: array?<SelectOption?>) returns (m: SelectMenu)
    ensures fresh(m) && fresh(Objects(m.customId)) && fresh(Objects(m.placeholder))
    ensures Objects(m.customId) !! Objects(m.placeholder)
    ensures m.options == options && m.count == |j.options| && m.plain == ReadMenu(j).plain
    ensures Chars(m.customId) == ReadMenu(j).customId && Chars(m.placeholder) == ReadMenu(j).placeholder
    ensures MenuAsGiven(j, m)
  {
    var customId := ParseText(j.customId);
    var placeholder := ParseText(j.placeholder);
    var plain := MenuPlain(Or(j.minValues, 1), Or(j.maxValues, 1), Or(j.disabled, false));
    m := new SelectMenu(customId, options, |j.options|, placeholder, plain);
  }

  method ParseMenu(j: Json, ghost live: set<object>)
    returns (m: SelectMenu, ghost t: MenuShape, ghost after: set<object>)
    ensures MenuHolds(t) && t.menu == m && MenuSeparate(t) && MenuContent(t) == ReadMenu(j)
    ensures (t.options != null ==> t.count > 0) && forall k :: 0 <= k < |t.choices| ==> t.choices[k].OptionAt?
    ensures live <= after && fresh(after - live) && MenuFootprint(t) <= after - live && MenuAsGiven(j, m)
  {
    ghost var ts;
    var options;
    options, ts, after := ParseOptions(j.options, live);
    m := NewParsedMenu(j, options);
    t := MenuShape(m, m.customId, options, |j.options|, ts, m.placeholder, m.plain);
    after := after + Objects(m.customId) + Objects(m.placeholder) + {m};
  }

  method WrapParsedMenu(j: Json, ghost live: set<object>)
    returns (c: Component, ghost t: Shape, ghost after: set<object>)
    requires Or(j.kind, 0) == SELECT_MENU
    ensures Root(t) == c && IsParse(j, t) && New(t, live, after) && fresh(after - live)
  {
    ghost var u;
    var m;
    m, u, after := ParseMenu(j, live);
    c := new Component(ToMenu(m));
    t := Menu(c, u);
    after := after + {c};
  }

  lemma OneMoreParsed(js: seq<Json>, ts: seq<Shape>, j: Json, t: Shape)
    requires AreParses(js, ts) && IsParse(j, t) && FootprintAll(ts) !! Footprint(t)
    ensures AreParses(js + [j], ts + [t])
    ensures FootprintAll(ts + [t]) == FootprintAll(ts) + Footprint(t)
    ensures Roots(ts + [t]) == Roots(ts) + [Root(t)]
  {
    Extended(ts, t);
    ExtendedHolds(ts, t);
    ExtendedSeparate(ts, t);
    assert (js + [j])[..|js|] == js;
  }

  /** One round of the loop of `ParseChildren`. */
  method ParseChild(js: seq<Json>, i: nat, dst: array<Component?>, ghost ts: seq<Shape>, ghost live: set<object>,
                    ghost before: set<object>)
    returns (ghost t: Shape, ghost after: set<object>)
    requires i < |js| == dst.Length && AreParses(js[..i], ts) && AllNew(ts, dst, live, before)
    modifies dst
    ensures dst[..] == old(dst[..])[i := Root(t)]
    ensures AreParses(js[..i + 1], ts + [t]) && AllNew(ts + [t], dst, live, after)
    ensures Roots(ts + [t]) == Roots(ts) + [Root(t)] && before <= after && fresh(after - before)
    decreases js, 0
  {
    SliceByOne(js, i);
    var x;
    x, t, after := Parse(js[i], before);
    assert AreParses(js[..i], ts);
    dst[i] := x;
    assert AreParses(js[..i], ts) && IsParse(js[i], t);
    OneMoreParsed(js[..i], ts, js[i], t);
  }

  method ParseChildren(js: seq<Json>, ghost live: set<object>)
    returns (dst: array?<Component?>, ghost ts: seq<Shape>, ghost after: set<object>)
    ensures (dst != null <==> |js| > 0) && (dst != null ==> dst[..] == Roots(ts)) && AreParses(js, ts)
    ensures live <= after && fresh(after - live) && Objects(dst) <= after - live
    ensures FootprintAll(ts) <= after - live - Objects(dst)
    decreases js, 1
  {
    if |js| <= 0 {
      return null, [], live;
    }
    dst := new Component?[|js|](_ => null);
    ts, after := [], live + {dst};
    for i := 0 to |js|
      invariant dst[..i] == Roots(ts) && AreParses(js[..i], ts)
      invariant AllNew(ts, dst, live, after) && fresh(after - live)
    {
      ghost var t;
      t, after := ParseChild(js, i, dst, ts, live, after);
      ts := ts + [t];
    }
    assert js[..|js|] == js;
  }

  method ParseRow(j: Json, ghost live: set<object>)
    returns (c: Component, ghost t: Shape, ghost after: set<object>)
    requires Or(j.kind, 0) == ACTION_ROW
    ensures Root(t) == c && IsParse(j, t) && New(t, live, after) && fresh(after - live)
    decreases j, 0
  {
    ghost var ts;
    var items;
    items, ts, after := ParseChildren(j.components, live);
    var r := new ActionRow(items, |j.components|);
    c := new Component(ToRow(r));
    t := Row(c, r, items, |j.components|, ts);
    after := after + {r, c};
  }

  /** `_d_json_to_component`: builds a component and everything below it. All of its objects are new,
      none is used twice, nothing is missing, and arrays are there only if they count something. */
  method Parse(j: Json, ghost live: set<object>) returns (c: Component, ghost t: Shape, ghost after: set<object>)
    ensures Root(t) == c && IsParse(j, t) && New(t, live, after) && fresh(after - live)
    ensures (c.comp.ToRow? <==> j.kind == Some(1)) && (c.comp.ToButton? <==> j.kind == Some(2))
    ensures (c.comp.ToMenu? <==> j.kind == Some(3)) && (c.comp.ToInput? <==> j.kind == Some(4))
    ensures c.comp.ToNothing? ==> c.comp.kind == if j.kind.Some? then j.kind.value else 0
    decreases j, 1
  {
    var kind := Or(j.kind, 0);
    if kind == ACTION_ROW {
      c, t, after := ParseRow(j, live);
    } else if kind == BUTTON {
      c, t, after := ParseButton(j, live);
    } else if kind == SELECT_MENU {
      c, t, after := WrapParsedMenu(j, live);
    } else if kind == TEXT_INPUT {
      c, t, after := WrapParsedInput(j, live);
    } else {
      c := new Component(ToNothing(kind));
      t := Other(c, kind);
      after := live + {c};
    }
  }

  // ---------- The life of a parsed tree ----------

  /** A tree in which no component and no option is missing. */
  predicate Whole(t: Tree)
    decreases t
  {
    match t
    case Nothing => false
    case RowOf(_, children) => WholeAll(children)
    case MenuOf(m) => WholeOptions(m.choices)
    case _ => true
  }

  predicate WholeAll(ts: seq<Tree>)
    decreases ts
  {
    ts != [] ==> WholeAll(ts[..|ts| - 1]) && Whole(ts[|ts| - 1])
  }

  predicate WholeOptions(ts: seq<OptionTree>) {
    ts != [] ==> WholeOptions(ts[..|ts| - 1]) && ts[|ts| - 1].Choice?
  }

  lemma {:induction false} TrimmedOptionsAreWhole(ts: seq<OptionTree>)
    ensures WholeOptions(OptionsTrimmed(ts)) <==> WholeOptions(ts)
  {
    if ts != [] {
      TrimmedOptionsAreWhole(ts[..|ts| - 1]);
      assert OptionsTrimmed(ts)[..|OptionsTrimmed(ts)| - 1] == OptionsTrimmed(ts[..|ts| - 1]);
    }
  }

  lemma {:induction false} TrimmedIsWhole(t: Tree)
    ensures Whole(Trimmed(t)) <==> Whole(t)
    decreases t
  {
    match t
    case Nothing =>
    case Unknown(_) =>
    case RowOf(_, children) => TrimmedAreWhole(children);
    case ButtonOf(_) =>
    case MenuOf(m) => TrimmedOptionsAreWhole(m.choices);
    case InputOf(_) =>
  }

  lemma {:induction false} TrimmedAreWhole(ts: seq<Tree>)
    ensures WholeAll(AllTrimmed(ts)) <==> WholeAll(ts)
    decreases ts
  {
    if ts != [] {
      TrimmedAreWhole(ts[..|ts| - 1]);
      TrimmedIsWhole(ts[|ts| - 1]);
      assert AllTrimmed(ts)[..|AllTrimmed(ts)| - 1] == AllTrimmed(ts[..|ts| - 1]);
    }
  }

  lemma {:induction false} WholeOptionsIff(ss: seq<OptionShape>)
    ensures WholeOptions(OptionContents(ss)) <==> forall k :: 0 <= k < |ss| ==> ss[k].OptionAt?
  {
    if ss != [] {
      var front := ss[..|ss| - 1];
      WholeOptionsIff(front);
      assert OptionContents(ss)[..|OptionContents(ss)| - 1] == OptionContents(front);
      assert forall k :: 0 <= k < |front| ==> ss[k] == front[k];
    }
  }

  /** Whether a tree is complete shows in its contents. */
  lemma {:induction false} CompleteIff(s: Shape)
    ensures Complete(s) <==> Whole(Content(s))
    decreases s
  {
    match s
    case Absent =>
    case Other(_, _) =>
    case Row(_, _, _, _, children) => AllCompleteIff(children);
    case Press(_, _) =>
    case Menu(_, m) => WholeOptionsIff(m.choices);
    case Input(_, _) =>
  }

  lemma {:induction false} AllCompleteIff(ss: seq<Shape>)
    ensures (forall k :: 0 <= k < |ss| ==> Complete(ss[k])) <==> WholeAll(Contents(ss))
    decreases ss
  {
    if ss != [] {
      var front := ss[..|ss| - 1];
      AllCompleteIff(front);
      CompleteIff(ss[|ss| - 1]);
      assert Contents(ss)[..|Contents(ss)| - 1] == Contents(front);
      assert forall k :: 0 <= k < |front| ==> ss[k] == front[k];
    }
  }

  /** A copy is complete exactly if its source is. */
  lemma CopyIsComplete(s: Shape, t: Shape)
    requires IsCopy(s, t)
    ensures Complete(t) <==> Complete(s)
  {
    CompleteIff(s);
    CompleteIff(t);
    TrimmedIsWhole(Content(s));
  }

  /** For any JSON: parsing it, copying the tree and destroying both frees no object twice. */
  method ParseCopyAndDestroy(j: Json) returns (freed: seq<object>)
    ensures NoDuplicates(freed)
  {
    ghost var live: set<object> := {};
    var source, copy;
    ghost var s, t, after;
    source, s, live := Parse(j, live);
    copy, t, after := Copy(source, s, live);
    CopyIsComplete(s, t);
    CopyOfCountedIsSafe(s, t, live, after);
    var first := Destroy(source, s, after);
    var second := Destroy(copy, t, after);
    freed := first + second;
  }
}
