/** Deep copy and destruction of message components on the heap. */
module Component {
  import opened Optional

  // ---------- The heap structures ----------

  /** An allocated C string. */
  class Text {
    const chars: string

    constructor (chars: string)
      ensures this.chars == chars
    {
      this.chars := chars;
    }
  }

  /** An emoji has no content of its own. */
  class Emoji {
    constructor () {}
  }

  class SelectOption {
    const caption: Text?
    const value: Text?
    const description: Text?
    const emoji: Emoji?
    const preset: bool

    constructor (caption: Text?, value: Text?, description: Text?, emoji: Emoji?, preset: bool)
      ensures this.caption == caption && this.value == value && this.description == description
      ensures this.emoji == emoji && this.preset == preset
    {
      this.caption, this.value, this.description, this.emoji, this.preset := caption, value, description, emoji, preset;
    }
  }

  class Button {
    const style: int
    const caption: Text?
    const emoji: Emoji?
    const customId: Text?
    const url: Text?
    const disabled: bool

    constructor (style: int, caption: Text?, emoji: Emoji?, customId: Text?, url: Text?, disabled: bool)
      ensures this.style == style && this.caption == caption && this.emoji == emoji
      ensures this.customId == customId && this.url == url && this.disabled == disabled
    {
      this.style, this.caption, this.emoji := style, caption, emoji;
      this.customId, this.url, this.disabled := customId, url, disabled;
    }
  }

  /** Fields that a copy takes over unchanged are one value in a menu and in a text input. */
  datatype MenuPlain = MenuPlain(minValues: int, maxValues: int, disabled: bool)

  class SelectMenu {
    const customId: Text?
    const options: array?<SelectOption?>
    const count: int
    const placeholder: Text?
    const plain: MenuPlain

    constructor (customId: Text?, options: array?<SelectOption?>, count: int, placeholder: Text?, plain: MenuPlain)
      ensures this.customId == customId && this.options == options && this.count == count
      ensures this.placeholder == placeholder && this.plain == plain
    {
      this.customId, this.options, this.count := customId, options, count;
      this.placeholder, this.plain := placeholder, plain;
    }
  }

  datatype InputPlain = InputPlain(style: int, minLength: int, maxLength: int, required: bool)

  class TextInput {
    const customId: Text?
    const caption: Text?
    const value: Text?
    const placeholder: Text?
    const plain: InputPlain

    constructor (customId: Text?, caption: Text?, value: Text?, placeholder: Text?, plain: InputPlain)
      ensures this.customId == customId && this.caption == caption && this.value == value
      ensures this.placeholder == placeholder && this.plain == plain
    {
      this.customId, this.caption, this.value := customId, caption, value;
      this.placeholder, this.plain := placeholder, plain;
    }
  }

  class ActionRow {
    const components: array?<Component?>
    const count: int

    constructor (components: array?<Component?>, count: int)
      ensures this.components == components && this.count == count
    {
      this.components, this.count := components, count;
    }
  }

  /** The union: a component type decides which structure it points to. */
  datatype Union = ToRow(row: ActionRow) | ToButton(button: Button) | ToMenu(menu: SelectMenu)
                 | ToInput(input: TextInput) | ToNothing(kind: int)

  class Component {
    const comp: Union

    constructor (comp: Union)
      ensures this.comp == comp
    {
      this.comp := comp;
    }
  }

  // ---------- Strings ----------

  type Str = Option<string>

  function Chars(t: Text?): Str {
    if t == null then None else Some(t.chars)
  }

  /** `strndup`: at most `n` characters. */
  function Cut(o: Str, n: nat): Str {
    match o
    case None => None
    case Some(s) => Some(if n < |s| then s[..n] else s)
  }

  /** `b` is there exactly if `a` is, and is its first `limit` characters, or all of it if it has fewer. */
  predicate CutTo(a: Str, b: Str, limit: nat) {
    match a
    case None => b.None?
    case Some(s) => b.Some? && b.value <= s && |b.value| == if |s| <= limit then |s| else limit
  }

  /** The same of strings on the heap. */
  predicate TextCutTo(a: Text?, b: Text?, limit: nat) {
    CutTo(if a == null then None else Some(a.chars), if b == null then None else Some(b.chars), limit)
  }

  ghost function Objects(o: object?): set<object> {
    if o == null then {} else {o}
  }

  method CopyText(t: Text?, n: nat) returns (r: Text?)
    ensures fresh(Objects(r))
    ensures Chars(r) == Cut(Chars(t), n) && TextCutTo(t, r, n)
  {
    if t == null {
      return null;
    }
    r := new Text(if n < |t.chars| then t.chars[..n] else t.chars);
  }

  // ---------- Shapes: which objects make up a structure, and with which contents ----------

  datatype OptionShape =
    | NoOption
    | OptionAt(o: SelectOption, caption: Text?, value: Text?, description: Text?, emoji: Emoji?, preset: bool)

  datatype ButtonShape = ButtonShape(
    button: Button, style: int, caption: Text?, emoji: Emoji?, customId: Text?, url: Text?, disabled: bool)

  datatype MenuShape = MenuShape(
    menu: SelectMenu, customId: Text?, options: array?<SelectOption?>, count: int, choices: seq<OptionShape>,
    placeholder: Text?, plain: MenuPlain)

  datatype InputShape = InputShape(
    input: TextInput, customId: Text?, caption: Text?, value: Text?, placeholder: Text?, plain: InputPlain)

  datatype Shape =
    | Absent
    | Other(c: Component, kind: int)
    | Row(c: Component, row: ActionRow, items: array?<Component?>, count: int, children: seq<Shape>)
    | Press(c: Component, b: ButtonShape)
    | Menu(c: Component, m: MenuShape)
    | Input(c: Component, i: InputShape)

  ghost function OptionFootprint(s: OptionShape): set<object> {
    match s
    case NoOption => {}
    case OptionAt(o, l, v, d, e, _) => {o} + Objects(l) + Objects(v) + Objects(d) + Objects(e)
  }

  ghost function OptionsFootprint(ss: seq<OptionShape>): set<object> {
    if ss == [] then {} else OptionsFootprint(ss[..|ss| - 1]) + OptionFootprint(ss[|ss| - 1])
  }

  ghost function ButtonFootprint(s: ButtonShape): set<object> {
    {s.button} + Objects(s.caption) + Objects(s.emoji) + Objects(s.customId) + Objects(s.url)
  }

  ghost function MenuFootprint(s: MenuShape): set<object> {
    {s.menu} + Objects(s.customId) + Objects(s.options) + OptionsFootprint(s.choices) + Objects(s.placeholder)
  }

  ghost function InputFootprint(s: InputShape): set<object> {
    {s.input} + Objects(s.customId) + Objects(s.caption) + Objects(s.value) + Objects(s.placeholder)
  }

  ghost function Footprint(s: Shape): set<object>
    decreases s
  {
    match s
    case Absent => {}
    case Other(c, _) => {c}
    case Row(c, r, items, _, children) => {c, r} + Objects(items) + FootprintAll(children)
    case Press(c, b) => {c} + ButtonFootprint(b)
    case Menu(c, m) => {c} + MenuFootprint(m)
    case Input(c, i) => {c} + InputFootprint(i)
  }

  ghost function FootprintAll(ss: seq<Shape>): set<object>
    decreases ss
  {
    if ss == [] then {} else FootprintAll(ss[..|ss| - 1]) + Footprint(ss[|ss| - 1])
  }

  function Root(s: Shape): Component? {
    match s
    case Absent => null
    case _ => s.c
  }

  function OptionRoot(s: OptionShape): SelectOption? {
    match s case NoOption => null case OptionAt(o, _, _, _, _, _) => o
  }

  function Roots(ss: seq<Shape>): (r: seq<Component?>)
    ensures |r| == |ss|
  {
    if ss == [] then [] else Roots(ss[..|ss| - 1]) + [Root(ss[|ss| - 1])]
  }

  function OptionRoots(ss: seq<OptionShape>): (r: seq<SelectOption?>)
    ensures |r| == |ss|
  {
    if ss == [] then [] else OptionRoots(ss[..|ss| - 1]) + [OptionRoot(ss[|ss| - 1])]
  }

  // ---------- The heap agrees with a shape ----------

  ghost predicate OptionHolds(s: OptionShape) {
    s.OptionAt? ==>
      && s.o.caption == s.caption && s.o.value == s.value && s.o.description == s.description
      && s.o.emoji == s.emoji && s.o.preset == s.preset
  }

  ghost predicate OptionsHold(ss: seq<OptionShape>) {
    ss != [] ==> OptionsHold(ss[..|ss| - 1]) && OptionHolds(ss[|ss| - 1])
  }

  ghost predicate ButtonHolds(s: ButtonShape) {
    var b := s.button;
    && b.style == s.style && b.caption == s.caption && b.emoji == s.emoji
    && b.customId == s.customId && b.url == s.url && b.disabled == s.disabled
  }

  ghost predicate MenuHolds(s: MenuShape)
    reads Objects(s.options)
  {
    var m := s.menu;
    && m.customId == s.customId && m.options == s.options && m.count == s.count
    && m.placeholder == s.placeholder && m.plain == s.plain
    && |s.choices| == (if s.count > 0 then s.count else 0)
    && (s.count > 0 ==> s.options != null && s.options[..] == OptionRoots(s.choices))
    && OptionsHold(s.choices)
  }

  ghost predicate InputHolds(s: InputShape) {
    var i := s.input;
    && i.customId == s.customId && i.caption == s.caption && i.value == s.value
    && i.placeholder == s.placeholder && i.plain == s.plain
  }

  ghost predicate Holds(s: Shape)
    reads Footprint(s)
    decreases s
  {
    match s
    case Absent => true
    case Other(c, kind) => c.comp == ToNothing(kind)
    case Row(c, r, items, count, children) =>
      && c.comp == ToRow(r) && r.components == items && r.count == count
      && |children| == (if count > 0 then count else 0)
      && (count > 0 ==> items != null && items[..] == Roots(children))
      && HoldsAll(children)
    case Press(c, b) => c.comp == ToButton(b.button) && ButtonHolds(b)
    case Menu(c, m) => c.comp == ToMenu(m.menu) && MenuHolds(m)
    case Input(c, i) => c.comp == ToInput(i.input) && InputHolds(i)
  }

  ghost predicate HoldsAll(ss: seq<Shape>)
    reads FootprintAll(ss)
    decreases ss
  {
    ss != [] ==> HoldsAll(ss[..|ss| - 1]) && Holds(ss[|ss| - 1])
  }

  // ---------- Contents ----------

  datatype OptionTree = NoChoice | Choice(caption: Str, value: Str, description: Str, emoji: bool, preset: bool)

  datatype ButtonTree = ButtonTree(style: int, caption: Str, emoji: bool, customId: Str, url: Str, disabled: bool)

  datatype MenuTree = MenuTree(customId: Str, count: int, choices: seq<OptionTree>, placeholder: Str, plain: MenuPlain)

  datatype InputTree = InputTree(customId: Str, caption: Str, value: Str, placeholder: Str, plain: InputPlain)

  datatype Tree =
    | Nothing
    | Unknown(kind: int)
    | RowOf(count: int, children: seq<Tree>)
    | ButtonOf(b: ButtonTree)
    | MenuOf(m: MenuTree)
    | InputOf(i: InputTree)

  function OptionContent(s: OptionShape): OptionTree {
    match s
    case NoOption => NoChoice
    case OptionAt(_, l, v, d, e, preset) => Choice(Chars(l), Chars(v), Chars(d), e != null, preset)
  }

  function OptionContents(ss: seq<OptionShape>): seq<OptionTree> {
    if ss == [] then [] else OptionContents(ss[..|ss| - 1]) + [OptionContent(ss[|ss| - 1])]
  }

  function ButtonContent(s: ButtonShape): ButtonTree {
    ButtonTree(s.style, Chars(s.caption), s.emoji != null, Chars(s.customId), Chars(s.url), s.disabled)
  }

  function MenuContent(s: MenuShape): MenuTree {
    MenuTree(Chars(s.customId), s.count, OptionContents(s.choices), Chars(s.placeholder), s.plain)
  }

  function InputContent(s: InputShape): InputTree {
    InputTree(Chars(s.customId), Chars(s.caption), Chars(s.value), Chars(s.placeholder), s.plain)
  }

  function Content(s: Shape): Tree
    decreases s
  {
    match s
    case Absent => Nothing
    case Other(_, kind) => Unknown(kind)
    case Row(_, _, _, count, children) => RowOf(count, Contents(children))
    case Press(_, b) => ButtonOf(ButtonContent(b))
    case Menu(_, m) => MenuOf(MenuContent(m))
    case Input(_, i) => InputOf(InputContent(i))
  }

  function Contents(ss: seq<Shape>): seq<Tree>
    decreases ss
  {
    if ss == [] then [] else Contents(ss[..|ss| - 1]) + [Content(ss[|ss| - 1])]
  }

  // ---------- What a copy keeps: strings up to a limit for each field, and no emoji ----------

  function OptionTrimmed(t: OptionTree): OptionTree {
    match t
    case NoChoice => NoChoice
    case Choice(l, v, d, _, preset) => Choice(Cut(l, 101), Cut(v, 101), Cut(d, 101), false, preset)
  }

  function OptionsTrimmed(ts: seq<OptionTree>): seq<OptionTree> {
    if ts == [] then [] else OptionsTrimmed(ts[..|ts| - 1]) + [OptionTrimmed(ts[|ts| - 1])]
  }

  function ButtonTrimmed(t: ButtonTree): ButtonTree {
    t.(caption := Cut(t.caption, 101), emoji := false, customId := Cut(t.customId, 101), url := Cut(t.url, 2050))
  }

  function MenuTrimmed(t: MenuTree): MenuTree {
    t.(customId := Cut(t.customId, 101), choices := OptionsTrimmed(t.choices), placeholder := Cut(t.placeholder, 151))
  }

  function InputTrimmed(t: InputTree): InputTree {
    t.(customId := Cut(t.customId, 101), caption := Cut(t.caption, 50), value := Cut(t.value, 4001),
       placeholder := Cut(t.placeholder, 101))
  }

  function Trimmed(t: Tree): Tree
    decreases t
  {
    match t
    case Nothing => Nothing
    case Unknown(kind) => Unknown(kind)
    case RowOf(count, children) => RowOf(count, AllTrimmed(children))
    case ButtonOf(b) => ButtonOf(ButtonTrimmed(b))
    case MenuOf(m) => MenuOf(MenuTrimmed(m))
    case InputOf(i) => InputOf(InputTrimmed(i))
  }

  function AllTrimmed(ts: seq<Tree>): seq<Tree>
    decreases ts
  {
    if ts == [] then [] else AllTrimmed(ts[..|ts| - 1]) + [Trimmed(ts[|ts| - 1])]
  }

  lemma {:induction false} TrimmingOptionsTwice(ts: seq<OptionTree>)
    ensures OptionsTrimmed(OptionsTrimmed(ts)) == OptionsTrimmed(ts)
  {
    if ts != [] {
      TrimmingOptionsTwice(ts[..|ts| - 1]);
      assert OptionsTrimmed(ts)[..|OptionsTrimmed(ts)| - 1] == OptionsTrimmed(ts[..|ts| - 1]);
    }
  }

  lemma CuttingTwice(s: Str, n: nat)
    ensures Cut(Cut(s, n), n) == Cut(s, n)
  {
  }

  lemma TrimmingButtonTwice(b: ButtonTree)
    ensures ButtonTrimmed(ButtonTrimmed(b)) == ButtonTrimmed(b)
  {
    CuttingTwice(b.caption, 101);
    CuttingTwice(b.customId, 101);
    CuttingTwice(b.url, 2050);
  }

  lemma TrimmingMenuTwice(m: MenuTree)
    ensures MenuTrimmed(MenuTrimmed(m)) == MenuTrimmed(m)
  {
    CuttingTwice(m.customId, 101);
    CuttingTwice(m.placeholder, 151);
    TrimmingOptionsTwice(m.choices);
  }

  lemma TrimmingInputTwice(i: InputTree)
    ensures InputTrimmed(InputTrimmed(i)) == InputTrimmed(i)
  {
    CuttingTwice(i.customId, 101);
    CuttingTwice(i.caption, 50);
    CuttingTwice(i.value, 4001);
    CuttingTwice(i.placeholder, 101);
  }

  /** Copying a copy changes nothing more, for every tree. */
  lemma {:induction false} TrimmingTwice(t: Tree)
    ensures Trimmed(Trimmed(t)) == Trimmed(t)
    decreases t
  {
    match t
    case Nothing =>
    case Unknown(_) =>
    case RowOf(_, children) => TrimmingAllTwice(children);
    case ButtonOf(b) => TrimmingButtonTwice(b);
    case MenuOf(m) => TrimmingMenuTwice(m);
    case InputOf(i) => TrimmingInputTwice(i);
  }

  lemma {:induction false} TrimmingAllTwice(ts: seq<Tree>)
    ensures AllTrimmed(AllTrimmed(ts)) == AllTrimmed(ts)
    decreases ts
  {
    if ts != [] {
      TrimmingAllTwice(ts[..|ts| - 1]);
      TrimmingTwice(ts[|ts| - 1]);
      assert AllTrimmed(ts)[..|AllTrimmed(ts)| - 1] == AllTrimmed(ts[..|ts| - 1]);
    }
  }

  // ---------- Ownership ----------

  ghost predicate OptionSeparate(s: OptionShape) {
    s.OptionAt? ==> Objects(s.caption) !! Objects(s.value) !! Objects(s.description)
  }

  ghost predicate OptionsSeparate(ss: seq<OptionShape>) {
    ss != [] ==>
      && OptionsSeparate(ss[..|ss| - 1]) && OptionSeparate(ss[|ss| - 1])
      && OptionsFootprint(ss[..|ss| - 1]) !! OptionFootprint(ss[|ss| - 1])
  }

  ghost predicate ButtonSeparate(s: ButtonShape) {
    Objects(s.caption) !! Objects(s.customId) !! Objects(s.url)
  }

  ghost predicate MenuSeparate(s: MenuShape) {
    && Objects(s.customId) !! OptionsFootprint(s.choices) !! Objects(s.options) !! Objects(s.placeholder)
    && s.menu !in OptionsFootprint(s.choices) && OptionsSeparate(s.choices)
  }

  ghost predicate InputSeparate(s: InputShape) {
    Objects(s.customId) !! Objects(s.caption) !! Objects(s.value) !! Objects(s.placeholder)
  }

  /** No object is used in two places of the tree. */
  ghost predicate Separate(s: Shape)
    decreases s
  {
    match s
    case Absent => true
    case Other(_, _) => true
    case Row(c, r, items, _, children) =>
      {c, r} + Objects(items) !! FootprintAll(children) && SeparateAll(children)
    case Press(c, b) => c !in ButtonFootprint(b) && ButtonSeparate(b)
    case Menu(c, m) => c !in MenuFootprint(m) && MenuSeparate(m)
    case Input(c, i) => c !in InputFootprint(i) && InputSeparate(i)
  }

  ghost predicate SeparateAll(ss: seq<Shape>)
    decreases ss
  {
    ss != [] ==>
      && SeparateAll(ss[..|ss| - 1]) && Separate(ss[|ss| - 1])
      && FootprintAll(ss[..|ss| - 1]) !! Footprint(ss[|ss| - 1])
  }

  /** The option array that a copy of a menu shares with it: that of a menu with no options counted. */
  ghost function MenuShared(s: MenuShape): set<object> {
    if s.count > 0 then {} else Objects(s.options)
  }

  ghost function Shared(s: Shape): set<object>
    decreases s
  {
    match s
    case Row(_, _, _, _, children) => SharedAll(children)
    case Menu(_, m) => MenuShared(m)
    case _ => {}
  }

  ghost function SharedAll(ss: seq<Shape>): set<object>
    decreases ss
  {
    if ss == [] then {} else SharedAll(ss[..|ss| - 1]) + Shared(ss[|ss| - 1])
  }

  // ---------- Copying the parts ----------

  method CopyOption(src: SelectOption?, ghost s: OptionShape, ghost live: set<object>)
    returns (c: SelectOption?, ghost t: OptionShape, ghost after: set<object>)
    requires OptionHolds(s) && OptionRoot(s) == src
    ensures OptionHolds(t) && OptionRoot(t) == c && OptionSeparate(t)
    ensures live <= after && fresh(after - live) && OptionFootprint(t) <= after - live
    ensures OptionContent(t) == OptionTrimmed(OptionContent(s))
    ensures if src == null then c == null else
      && c != null && TextCutTo(src.caption, c.caption, 101) && TextCutTo(src.value, c.value, 101)
      && TextCutTo(src.description, c.description, 101) && c.emoji == null && c.preset == src.preset
  {
    if src == null {
      return null, NoOption, live;
    }
    var caption := CopyText(src.caption, 101);
    var value := CopyText(src.value, 101);
    var description := CopyText(src.description, 101);
    c := new SelectOption(caption, value, description, null, src.preset);
    t := OptionAt(c, caption, value, description, null, src.preset);
    after := live + OptionFootprint(t);
  }

  lemma OptionsExtended(ss: seq<OptionShape>, s: OptionShape)
    ensures OptionsFootprint(ss + [s]) == OptionsFootprint(ss) + OptionFootprint(s)
    ensures OptionContents(ss + [s]) == OptionContents(ss) + [OptionContent(s)]
    ensures OptionsSeparate(ss + [s]) <==>
              OptionsSeparate(ss) && OptionSeparate(s) && OptionsFootprint(ss) !! OptionFootprint(s)
    ensures OptionsHold(ss + [s]) <==> OptionsHold(ss) && OptionHolds(s)
    ensures OptionRoots(ss + [s]) == OptionRoots(ss) + [OptionRoot(s)]
  {
    assert (ss + [s])[..|ss|] == ss;
  }

  lemma OptionsTrimmedExtended(ts: seq<OptionTree>, t: OptionTree)
    ensures OptionsTrimmed(ts + [t]) == OptionsTrimmed(ts) + [OptionTrimmed(t)]
  {
    assert (ts + [t])[..|ts|] == ts;
  }

  lemma OptionInAll(ss: seq<OptionShape>, i: nat)
    requires i < |ss| && OptionsHold(ss)
    ensures OptionHolds(ss[i]) && OptionFootprint(ss[i]) <= OptionsFootprint(ss)
    ensures OptionRoots(ss)[i] == OptionRoot(ss[i])
  {
    if i < |ss| - 1 {
      OptionInAll(ss[..|ss| - 1], i);
    }
  }

  /** `ts` are copies of `ss`. */
  ghost predicate OptionsCopied(ss: seq<OptionShape>, ts: seq<OptionShape>) {
    && |ts| == |ss| && OptionsHold(ts) && OptionsSeparate(ts)
    && OptionContents(ts) == OptionsTrimmed(OptionContents(ss))
  }

  lemma OneMoreOption(ss: seq<OptionShape>, ts: seq<OptionShape>, s: OptionShape, t: OptionShape)
    requires OptionsCopied(ss, ts) && OptionHolds(t) && OptionSeparate(t)
    requires OptionsFootprint(ts) !! OptionFootprint(t) && OptionContent(t) == OptionTrimmed(OptionContent(s))
    ensures OptionsCopied(ss + [s], ts + [t])
    ensures OptionsFootprint(ts + [t]) == OptionsFootprint(ts) + OptionFootprint(t)
    ensures OptionRoots(ts + [t]) == OptionRoots(ts) + [OptionRoot(t)]
  {
    OptionsExtended(ts, t);
    OptionsExtended(ss, s);
    OptionsTrimmedExtended(OptionContents(ss), OptionContent(s));
  }

  lemma SliceByOne<T>(s: seq<T>, i: nat)
    requires i < |s|
    ensures s[..i + 1] == s[..i] + [s[i]]
  {
  }

  /** `after` has what was there, the new array and all of the copied options. */
  ghost predicate OptionsAccounted(ts: seq<OptionShape>, dst: object, live: set<object>, after: set<object>) {
    live <= after && dst in after - live && OptionsFootprint(ts) <= after - live - {dst}
  }

  /** One round of the loop of `CopyOptions`. */
  method CopyOptionAt(src: array<SelectOption?>, i: nat, dst: array<SelectOption?>, ghost ss: seq<OptionShape>,
                      ghost ts: seq<OptionShape>, ghost live: set<object>, ghost before: set<object>)
    returns (ghost t: OptionShape, ghost after: set<object>)
    requires OptionsHold(ss) && src[..] == OptionRoots(ss) && i < src.Length == dst.Length
    requires OptionsCopied(ss[..i], ts) && OptionsAccounted(ts, dst, live, before) && dst != src
    requires dst[..i] == OptionRoots(ts)
    modifies dst
    ensures dst[..i + 1] == OptionRoots(ts + [t]) && OptionsCopied(ss[..i + 1], ts + [t])
    ensures OptionsAccounted(ts + [t], dst, live, after) && before <= after && fresh(after - before)
    ensures src[..] == old(src[..])
  {
    OptionInAll(ss, i);
    SliceByOne(ss, i);
    var x;
    x, t, after := CopyOption(src[i], ss[i], before);
    dst[i] := x;
    SliceByOne(dst[..], i);
    OneMoreOption(ss[..i], ts, ss[i], t);
  }

  method CopyOptions(src: array<SelectOption?>, ghost ss: seq<OptionShape>, ghost live: set<object>)
    returns (dst: array<SelectOption?>, ghost ts: seq<OptionShape>, ghost after: set<object>)
    requires OptionsFootprint(ss) <= live
    requires OptionsHold(ss) && src[..] == OptionRoots(ss)
    ensures dst[..] == OptionRoots(ts) && OptionsCopied(ss, ts)
    ensures OptionsAccounted(ts, dst, live, after) && fresh(after - live)
  {
    dst := new SelectOption?[src.Length](_ => null);
    ts, after := [], live + {dst};
    for i := 0 to src.Length
      invariant dst[..i] == OptionRoots(ts) && OptionsCopied(ss[..i], ts)
      invariant OptionsAccounted(ts, dst, live, after) && fresh(after - live) && src[..] == OptionRoots(ss)
    {
      ghost var t;
      t, after := CopyOptionAt(src, i, dst, ss, ts, live, after);
      ts := ts + [t];
    }
    assert ss[..src.Length] == ss;
  }

  method CopyButton(src: Button, ghost s: ButtonShape) returns (c: Button, ghost t: ButtonShape)
    requires ButtonHolds(s) && s.button == src
    ensures ButtonHolds(t) && t.button == c && fresh(ButtonFootprint(t)) && ButtonSeparate(t)
    ensures ButtonContent(t) == ButtonTrimmed(ButtonContent(s))
    ensures TextCutTo(src.caption, c.caption, 101) && TextCutTo(src.customId, c.customId, 101)
    ensures TextCutTo(src.url, c.url, 2050)
    ensures c.style == src.style && c.emoji == null && c.disabled == src.disabled
  {
    var caption := CopyText(src.caption, 101);
    var customId := CopyText(src.customId, 101);
    var url := CopyText(src.url, 2050);
    c := new Button(src.style, caption, null, customId, url, src.disabled);
    t := ButtonShape(c, src.style, caption, null, customId, url, src.disabled);
  }

  /** The options of a copied menu: its own if any are counted, else the very array of the source. */
  method CopyMenuOptions(src: SelectMenu, ghost s: MenuShape, ghost live: set<object>)
    returns (options: array?<SelectOption?>, ghost ts: seq<OptionShape>, ghost after: set<object>)
    requires MenuFootprint(s) <= live && MenuHolds(s) && s.menu == src
    ensures OptionsCopied(s.choices, ts) && OptionsFootprint(ts) <= after - live - Objects(options)
    ensures src.count > 0 ==> options != null && options in after - live && options[..] == OptionRoots(ts)
    ensures src.count <= 0 ==> options == s.options && ts == []
    ensures live <= after && fresh(after - live)
  {
    if src.count > 0 {
      options, ts, after := CopyOptions(src.options, s.choices, live);
    } else {
      options, ts, after := src.options, [], live;
    }
  }

  /** The parts of a copied menu: its strings and its own record are new, besides what its options
      brought from `live` to `after`. */
  lemma MenuBuilt(s: MenuShape, t: MenuShape, live: set<object>, i: set<object>, after: set<object>, p: set<object>)
    requires i == Objects(t.customId) && p == Objects(t.placeholder) && t.menu !in after + i + p
    requires live <= after && after !! i !! p && t.count == s.count && t.plain == s.plain
    requires Chars(t.customId) == Cut(Chars(s.customId), 101) && Chars(t.placeholder) == Cut(Chars(s.placeholder), 151)
    requires OptionsCopied(s.choices, t.choices) && OptionsFootprint(t.choices) <= after - live - Objects(t.options)
    requires if s.count > 0 then t.options != null && t.options in after - live else t.options == s.options
    requires Objects(s.options) <= live
    ensures MenuContent(t) == MenuTrimmed(MenuContent(s)) && MenuShared(t) == MenuShared(s)
    ensures MenuShared(s) == {} ==> MenuSeparate(t)
    ensures var all := after + i + p + {t.menu};
      MenuFootprint(t) <= all && MenuFootprint(t) - MenuShared(s) <= all - live
  {
  }

  /** A menu with the plain fields and the strings of another. */
  method NewMenu(src: SelectMenu, options: array?<SelectOption?>) returns (c: SelectMenu)
    ensures fresh(c) && fresh(Objects(c.customId)) && fresh(Objects(c.placeholder))
    ensures Objects(c.customId) !! Objects(c.placeholder)
    ensures c.options == options && c.count == src.count && c.plain == src.plain
    ensures Chars(c.customId) == Cut(Chars(src.customId), 101)
    ensures Chars(c.placeholder) == Cut(Chars(src.placeholder), 151)
    ensures TextCutTo(src.customId, c.customId, 101) && TextCutTo(src.placeholder, c.placeholder, 151)
  {
    var customId := CopyText(src.customId, 101);
    var placeholder := CopyText(src.placeholder, 151);
    c := new SelectMenu(customId, options, src.count, placeholder, src.plain);
  }

  /** All fields are taken over; strings and, if any are counted, options are replaced by copies. */
  method CopyMenu(src: SelectMenu, ghost s: MenuShape, ghost live: set<object>)
    returns (c: SelectMenu, ghost t: MenuShape, ghost after: set<object>)
    requires MenuFootprint(s) <= live && MenuHolds(s) && s.menu == src
    ensures MenuHolds(t) && t.menu == c && MenuShared(t) == MenuShared(s)
    ensures live <= after && fresh(after - live)
    ensures MenuFootprint(t) <= after && MenuFootprint(t) - MenuShared(s) <= after - live
    ensures MenuShared(s) == {} ==> MenuSeparate(t)
    ensures MenuContent(t) == MenuTrimmed(MenuContent(s))
  {
    ghost var ts;
    var options;
    options, ts, after := CopyMenuOptions(src, s, live);
    c := NewMenu(src, options);
    t := MenuShape(c, c.customId, options, src.count, ts, c.placeholder, src.plain);
    MenuBuilt(s, t, live, Objects(c.customId), after, Objects(c.placeholder));
    after := after + Objects(c.customId) + Objects(c.placeholder) + {c};
  }

  method CopyInput(src: TextInput, ghost s: InputShape) returns (c: TextInput, ghost t: InputShape)
    requires InputHolds(s) && s.input == src
    ensures InputHolds(t) && t.input == c && fresh(InputFootprint(t)) && InputSeparate(t)
    ensures InputContent(t) == InputTrimmed(InputContent(s))
    ensures TextCutTo(src.customId, c.customId, 101) && TextCutTo(src.caption, c.caption, 50)
    ensures TextCutTo(src.value, c.value, 4001) && TextCutTo(src.placeholder, c.placeholder, 101)
    ensures c.plain == src.plain
  {
    var customId := CopyText(src.customId, 101);
    var caption := CopyText(src.caption, 50);
    var value := CopyText(src.value, 4001);
    var placeholder := CopyText(src.placeholder, 101);
    c := new TextInput(customId, caption, value, placeholder, src.plain);
    t := InputShape(c, customId, caption, value, placeholder, src.plain);
  }

  // ---------- Copying trees ----------

  /** What a copy `t` of `s` is, apart from which of its objects are new. */
  ghost predicate IsCopy(s: Shape, t: Shape)
    reads Footprint(t)
  {
    && Holds(t) && Content(t) == Trimmed(Content(s)) && Shared(t) == Shared(s)
    && (Shared(s) == {} ==> Separate(t))
  }

  ghost predicate AreCopies(ss: seq<Shape>, ts: seq<Shape>)
    reads FootprintAll(ts)
  {
    && |ts| == |ss| && HoldsAll(ts) && Contents(ts) == AllTrimmed(Contents(ss)) && SharedAll(ts) == SharedAll(ss)
    && (SharedAll(ss) == {} ==> SeparateAll(ts))
  }

  lemma InAll(ss: seq<Shape>, i: nat)
    requires i < |ss| && HoldsAll(ss)
    ensures Holds(ss[i]) && Footprint(ss[i]) <= FootprintAll(ss) && Roots(ss)[i] == Root(ss[i])
  {
    if i < |ss| - 1 {
      InAll(ss[..|ss| - 1], i);
    }
  }

  lemma Extended(ss: seq<Shape>, s: Shape)
    ensures FootprintAll(ss + [s]) == FootprintAll(ss) + Footprint(s)
    ensures Roots(ss + [s]) == Roots(ss) + [Root(s)]
    ensures Contents(ss + [s]) == Contents(ss) + [Content(s)]
    ensures SharedAll(ss + [s]) == SharedAll(ss) + Shared(s)
  {
    assert (ss + [s])[..|ss|] == ss;
  }

  lemma ExtendedHolds(ss: seq<Shape>, s: Shape)
    requires HoldsAll(ss) && Holds(s)
    ensures HoldsAll(ss + [s])
  {
    assert (ss + [s])[..|ss|] == ss;
  }

  lemma ExtendedSeparate(ss: seq<Shape>, s: Shape)
    requires SeparateAll(ss) && Separate(s) && FootprintAll(ss) !! Footprint(s)
    ensures SeparateAll(ss + [s])
  {
    assert (ss + [s])[..|ss|] == ss;
  }

  lemma AllTrimmedExtended(ts: seq<Tree>, t: Tree)
    ensures AllTrimmed(ts + [t]) == AllTrimmed(ts) + [Trimmed(t)]
  {
    assert (ts + [t])[..|ts|] == ts;
  }

  lemma OneMore(ss: seq<Shape>, ts: seq<Shape>, s: Shape, t: Shape)
    requires AreCopies(ss, ts) && IsCopy(s, t)
    requires SharedAll(ss) == {} && Shared(s) == {} ==> FootprintAll(ts) !! Footprint(t)
    ensures AreCopies(ss + [s], ts + [t])
    ensures FootprintAll(ts + [t]) == FootprintAll(ts) + Footprint(t)
    ensures SharedAll(ss + [s]) == SharedAll(ss) + Shared(s)
    ensures Roots(ts + [t]) == Roots(ts) + [Root(t)]
  {
    Extended(ts, t);
    Extended(ss, s);
    ExtendedHolds(ts, t);
    AllTrimmedExtended(Contents(ss), Content(s));
    if SharedAll(ss) == {} && Shared(s) == {} {
      ExtendedSeparate(ts, t);
    }
  }

  lemma {:induction false} SharedIsOwned(s: Shape)
    ensures Shared(s) <= Footprint(s)
    decreases s
  {
    if s.Row? {
      SharedAllIsOwned(s.children);
    }
  }

  lemma {:induction false} SharedAllIsOwned(ss: seq<Shape>)
    ensures SharedAll(ss) <= FootprintAll(ss)
    decreases ss
  {
    if ss != [] {
      SharedAllIsOwned(ss[..|ss| - 1]);
      SharedIsOwned(ss[|ss| - 1]);
    }
  }

  /** `after` has what was there and the new objects, among them all of the copy but shared arrays. */
  ghost predicate Accounted(s: Shape, t: Shape, live: set<object>, after: set<object>) {
    live <= after && Footprint(t) <= after && Footprint(t) - Shared(s) <= after - live
  }

  ghost predicate AllAccounted(ss: seq<Shape>, ts: seq<Shape>, dst: object, live: set<object>, after: set<object>) {
    && live <= after && dst in after - live
    && FootprintAll(ts) <= after - {dst} && FootprintAll(ts) - SharedAll(ss) <= after - live
  }

  lemma OneMoreAccounted(ss: seq<Shape>, ts: seq<Shape>, s: Shape, t: Shape, dst: object,
                         live: set<object>, before: set<object>, after: set<object>)
    requires AreCopies(ss, ts) && AllAccounted(ss, ts, dst, live, before)
    requires IsCopy(s, t) && Accounted(s, t, before, after) && Footprint(s) <= live
    ensures AreCopies(ss + [s], ts + [t]) && AllAccounted(ss + [s], ts + [t], dst, live, after)
    ensures Roots(ts + [t]) == Roots(ts) + [Root(t)]
  {
    SharedIsOwned(s);
    OneMore(ss, ts, s, t);
  }

  lemma NoneCopied(ss: seq<Shape>, dst: object, live: set<object>)
    requires dst !in live
    ensures AreCopies(ss[..0], []) && AllAccounted(ss[..0], [], dst, live, live + {dst})
  {
    assert ss[..0] == [];
  }

  /** Storing a copy disturbs neither it nor the copies before it. */
  method PlaceCopy(dst: array<Component?>, i: nat, x: Component?, ghost ss: seq<Shape>, ghost ts: seq<Shape>,
                   ghost s: Shape, ghost t: Shape)
    requires i < dst.Length && AreCopies(ss, ts) && IsCopy(s, t) && dst !in FootprintAll(ts) + Footprint(t)
    modifies dst
    ensures dst[..] == old(dst[..])[i := x] && AreCopies(ss, ts) && IsCopy(s, t)
  {
    dst[i] := x;
  }

  method CopyChild(src: array<Component?>, i: nat, dst: array<Component?>, ghost ss: seq<Shape>, ghost ts: seq<Shape>,
                   ghost live: set<object>, ghost before: set<object>)
    returns (ghost t: Shape, ghost after: set<object>)
    requires FootprintAll(ss) <= live && HoldsAll(ss) && src[..] == Roots(ss) && i < src.Length == dst.Length
    requires AreCopies(ss[..i], ts) && AllAccounted(ss[..i], ts, dst, live, before) && dst != src
    modifies dst
    ensures dst[..] == old(dst[..])[i := Root(t)]
    ensures AreCopies(ss[..i + 1], ts + [t]) && AllAccounted(ss[..i + 1], ts + [t], dst, live, after)
    ensures Roots(ts + [t]) == Roots(ts) + [Root(t)] && before <= after && fresh(after - before)
    ensures HoldsAll(ss) && src[..] == old(src[..])
    decreases ss, 0
  {
    InAll(ss, i);
    SliceByOne(ss, i);
    var x;
    assert FootprintAll(ts) <= before - {dst};
    x, t, after := Copy(src[i], ss[i], before);
    assert AreCopies(ss[..i], ts);
    assert dst !in Footprint(t) by { SharedIsOwned(ss[i]); }
    PlaceCopy(dst, i, x, ss[..i], ts, ss[i], t);
    OneMoreAccounted(ss[..i], ts, ss[i], t, dst, live, before, after);
  }

  /** One round of the loop of `CopyChildren`, with the part of the array that is filled. */
  method CopyNext(src: array<Component?>, i: nat, dst: array<Component?>, ghost ss: seq<Shape>, ghost ts: seq<Shape>,
                  ghost live: set<object>, ghost before: set<object>)
    returns (ghost t: Shape, ghost after: set<object>)
    requires FootprintAll(ss) <= live && HoldsAll(ss) && src[..] == Roots(ss) && i < src.Length == dst.Length
    requires AreCopies(ss[..i], ts) && AllAccounted(ss[..i], ts, dst, live, before) && dst != src
    requires dst[..i] == Roots(ts)
    modifies dst
    ensures dst[..i + 1] == Roots(ts + [t]) && before <= after && fresh(after - before)
    ensures AreCopies(ss[..i + 1], ts + [t]) && AllAccounted(ss[..i + 1], ts + [t], dst, live, after)
    ensures HoldsAll(ss) && src[..] == old(src[..])
    decreases ss, 1
  {
    t, after := CopyChild(src, i, dst, ss, ts, live, before);
    SliceByOne(dst[..], i);
  }

  method CopyChildren(src: array<Component?>, ghost ss: seq<Shape>, ghost live: set<object>)
    returns (dst: array<Component?>, ghost ts: seq<Shape>, ghost after: set<object>)
    requires FootprintAll(ss) <= live && HoldsAll(ss) && src[..] == Roots(ss)
    ensures dst[..] == Roots(ts) && AreCopies(ss, ts)
    ensures AllAccounted(ss, ts, dst, live, after) && fresh(after - live)
    decreases ss, 2
  {
    dst := new Component?[src.Length](_ => null);
    ts, after := [], live + {dst};
    NoneCopied(ss, dst, live);
    for i := 0 to src.Length
      invariant dst[..i] == Roots(ts) && AreCopies(ss[..i], ts)
      invariant AllAccounted(ss[..i], ts, dst, live, after) && fresh(after - live)
      invariant src[..] == Roots(ss) && HoldsAll(ss)
    {
      ghost var t;
      t, after := CopyNext(src, i, dst, ss, ts, live, after);
      ts := ts + [t];
    }
    assert ss[..src.Length] == ss;
  }

  method CopyRow(src: ActionRow, ghost s: Shape, ghost live: set<object>)
    returns (r: ActionRow, ghost ts: seq<Shape>, ghost after: set<object>)
    requires Footprint(s) <= live && Holds(s) && s.Row? && s.row == src
    ensures r.count == s.count && (s.count > 0 ==> r.components != null && r.components[..] == Roots(ts))
    ensures AreCopies(s.children, ts) && live <= after && fresh(after - live)
    ensures {r} + Objects(r.components) <= after - live
    ensures FootprintAll(ts) <= after - {r} - Objects(r.components)
    ensures FootprintAll(ts) - SharedAll(s.children) <= after - live
    decreases s, 0
  {
    var items: array?<Component?> := null;
    ts, after := [], live;
    if src.count > 0 {
      items, ts, after := CopyChildren(src.components, s.children, live);
    }
    r := new ActionRow(items, src.count);
    after := after + {r};
  }

  method WrapRow(row: ActionRow, ghost s: Shape, ghost live: set<object>)
    returns (c: Component, ghost t: Shape, ghost after: set<object>)
    requires Footprint(s) <= live && Holds(s) && s.Row? && s.row == row
    ensures t.Row? && t.c == c && IsCopy(s, t) && Accounted(s, t, live, after) && fresh(after - live)
    decreases s, 1
  {
    ghost var ts;
    var r;
    r, ts, after := CopyRow(row, s, live);
    c := new Component(ToRow(r));
    t := Row(c, r, r.components, r.count, ts);
    after := after + {c};
  }

  method WrapMenu(menu: SelectMenu, ghost s: Shape, ghost live: set<object>)
    returns (c: Component, ghost t: Shape, ghost after: set<object>)
    requires Footprint(s) <= live && Holds(s) && s.Menu? && s.m.menu == menu
    ensures t.Menu? && t.c == c && IsCopy(s, t) && Accounted(s, t, live, after) && fresh(after - live)
  {
    ghost var u;
    var m;
    m, u, after := CopyMenu(menu, s.m, live);
    c := new Component(ToMenu(m));
    t := Menu(c, u);
    after := after + {c};
  }

  method WrapButton(button: Button, ghost s: Shape, ghost live: set<object>)
    returns (c: Component, ghost t: Shape, ghost after: set<object>)
    requires Holds(s) && s.Press? && s.b.button == button
    ensures t.Press? && t.c == c && IsCopy(s, t) && Accounted(s, t, live, after) && fresh(after - live)
  {
    ghost var u;
    var b;
    b, u := CopyButton(button, s.b);
    c := new Component(ToButton(b));
    t := Press(c, u);
    after := live + Footprint(t);
  }

  method WrapInput(input: TextInput, ghost s: Shape, ghost live: set<object>)
    returns (c: Component, ghost t: Shape, ghost after: set<object>)
    requires Holds(s) && s.Input? && s.i.input == input
    ensures t.Input? && t.c == c && IsCopy(s, t) && Accounted(s, t, live, after) && fresh(after - live)
  {
    ghost var u;
    var i;
    i, u := CopyInput(input, s.i);
    c := new Component(ToInput(i));
    t := Input(c, u);
    after := live + Footprint(t);
  }

  /** Copies a component and everything below it.  The source is not changed, as nothing that was
      there before is; all that the copy uses is new, except for shared option arrays.  `live` and
      `after` are the objects in existence that the proof keeps track of. */
  method Copy(src: Component?, ghost s: Shape, ghost live: set<object>)
    returns (c: Component?, ghost t: Shape, ghost after: set<object>)
    requires Footprint(s) <= live && Holds(s) && Root(s) == src
    ensures Root(t) == c && IsCopy(s, t) && Accounted(s, t, live, after) && fresh(after - live)
    decreases s, 2
  {
    if src == null {
      return null, Absent, live;
    }
    match src.comp {
      case ToRow(row) => c, t, after := WrapRow(row, s, live);
      case ToMenu(menu) => c, t, after := WrapMenu(menu, s, live);
      case ToButton(button) => c, t, after := WrapButton(button, s, live);
      case ToInput(input) => c, t, after := WrapInput(input, s, live);
      case ToNothing(kind) =>
        c := new Component(ToNothing(kind));
        t := Other(c, kind);
        after := live + {c};
    }
  }

  /** The copy is disjoint from its source exactly when no menu without counted options has an
      option array. */
  lemma CopyIsDisjointIff(s: Shape, t: Shape, live: set<object>, after: set<object>)
    requires Footprint(s) <= live && IsCopy(s, t) && Accounted(s, t, live, after)
    ensures Footprint(s) !! Footprint(t) <==> Shared(s) == {}
  {
    SharedIsOwned(s);
    SharedIsOwned(t);
    if o :| o in Shared(s) {
      assert o in Footprint(s) && o in Footprint(t);
    }
  }

  // ---------- Destroying ----------

  function AsSeq(o: object?): seq<object> {
    if o == null then [] else [o]
  }

  /** What a destroy hands to `free`, in order. */
  function OptionFrees(s: OptionShape): seq<object> {
    match s
    case NoOption => []
    case OptionAt(o, l, v, d, _, _) => AsSeq(l) + AsSeq(v) + AsSeq(d) + [o]
  }

  function OptionsFrees(ss: seq<OptionShape>): seq<object> {
    if ss == [] then [] else OptionsFrees(ss[..|ss| - 1]) + OptionFrees(ss[|ss| - 1])
  }

  function ButtonFrees(s: ButtonShape): seq<object> {
    AsSeq(s.caption) + AsSeq(s.customId) + AsSeq(s.url)
  }

  function MenuFrees(s: MenuShape): seq<object> {
    AsSeq(s.customId) + OptionsFrees(s.choices) + AsSeq(s.options) + AsSeq(s.placeholder)
  }

  function InputFrees(s: InputShape): seq<object> {
    AsSeq(s.customId) + AsSeq(s.caption) + AsSeq(s.value) + AsSeq(s.placeholder)
  }

  function Frees(s: Shape): seq<object>
    decreases s
  {
    match s
    case Absent => []
    case Other(c, _) => [c]
    case Row(c, _, items, _, children) => AllFrees(children) + AsSeq(items) + [c]
    case Press(c, b) => ButtonFrees(b) + [c]
    case Menu(c, m) => MenuFrees(m) + [c]
    case Input(c, i) => InputFrees(i) + [c]
  }

  function AllFrees(ss: seq<Shape>): seq<object>
    decreases ss
  {
    if ss == [] then [] else AllFrees(ss[..|ss| - 1]) + Frees(ss[|ss| - 1])
  }

  /** What a destroy leaves behind: the structure inside each component, and every emoji. */
  ghost function OptionsKept(ss: seq<OptionShape>): set<object> {
    if ss == [] then {}
    else OptionsKept(ss[..|ss| - 1]) + if ss[|ss| - 1].OptionAt? then Objects(ss[|ss| - 1].emoji) else {}
  }

  ghost function Kept(s: Shape): set<object>
    decreases s
  {
    match s
    case Absent => {}
    case Other(_, _) => {}
    case Row(_, r, _, _, children) => {r} + AllKept(children)
    case Press(_, b) => {b.button} + Objects(b.emoji)
    case Menu(_, m) => {m.menu} + OptionsKept(m.choices)
    case Input(_, i) => {i.input}
  }

  ghost function AllKept(ss: seq<Shape>): set<object>
    decreases ss
  {
    if ss == [] then {} else AllKept(ss[..|ss| - 1]) + Kept(ss[|ss| - 1])
  }

  /** Destroying a missing component or option is not allowed. */
  ghost predicate Complete(s: Shape)
    decreases s
  {
    match s
    case Absent => false
    case Row(_, _, _, _, children) => forall k :: 0 <= k < |children| ==> Complete(children[k])
    case Menu(_, m) => forall k :: 0 <= k < |m.choices| ==> m.choices[k].OptionAt?
    case _ => true
  }

  ghost predicate NoDuplicates(q: seq<object>) {
    forall i, j :: 0 <= i < j < |q| ==> q[i] != q[j]
  }

  ghost function Elements(q: seq<object>): set<object> {
    set o | o in q
  }

  method DestroyOption(o: SelectOption, ghost s: OptionShape) returns (freed: seq<object>)
    requires OptionHolds(s) && s.OptionAt? && s.o == o
    ensures freed == OptionFrees(s)
  {
    freed := AsSeq(o.caption) + AsSeq(o.value) + AsSeq(o.description) + [o];
  }

  /** The options counted by a menu, first to last. */
  method DestroyOptions(options: array<SelectOption?>, ghost ss: seq<OptionShape>) returns (freed: seq<object>)
    requires OptionsHold(ss) && options[..] == OptionRoots(ss) && forall k :: 0 <= k < |ss| ==> ss[k].OptionAt?
    ensures freed == OptionsFrees(ss)
  {
    freed := [];
    for i := 0 to options.Length
      invariant freed == OptionsFrees(ss[..i]) && options[..] == OptionRoots(ss)
    {
      OptionInAll(ss, i);
      assert ss[..i + 1][..i] == ss[..i];
      var more := DestroyOption(options[i], ss[i]);
      freed := freed + more;
    }
    assert ss[..options.Length] == ss;
  }

  method DestroyMenu(m: SelectMenu, ghost s: MenuShape) returns (freed: seq<object>)
    requires MenuHolds(s) && s.menu == m && forall k :: 0 <= k < |s.choices| ==> s.choices[k].OptionAt?
    ensures freed == MenuFrees(s)
  {
    freed := AsSeq(m.customId);
    if m.count > 0 {
      var more := DestroyOptions(m.options, s.choices);
      freed := freed + more;
    }
    freed := freed + AsSeq(m.options) + AsSeq(m.placeholder);
  }

  method DestroyChildren(items: array<Component?>, ghost ss: seq<Shape>, ghost live: set<object>)
    returns (freed: seq<object>)
    requires FootprintAll(ss) <= live && HoldsAll(ss) && items[..] == Roots(ss)
    requires forall k :: 0 <= k < |ss| ==> Complete(ss[k])
    ensures freed == AllFrees(ss)
    decreases ss, 0
  {
    freed := [];
    for i := 0 to items.Length
      invariant freed == AllFrees(ss[..i]) && items[..] == Roots(ss) && HoldsAll(ss)
    {
      InAll(ss, i);
      assert ss[..i + 1][..i] == ss[..i];
      var more := Destroy(items[i], ss[i], live);
      freed := freed + more;
    }
    assert ss[..items.Length] == ss;
  }

  /** `discord_destroy_component`: the result lists what is handed to `free`, in order. */
  method Destroy(c: Component, ghost s: Shape, ghost live: set<object>) returns (freed: seq<object>)
    requires Footprint(s) <= live && Holds(s) && Root(s) == c && Complete(s)
    ensures freed == Frees(s)
    decreases s, 1
  {
    freed := [];
    match c.comp {
      case ToRow(row) =>
        if row.count > 0 {
          freed := DestroyChildren(row.components, s.children, live);
        }
        freed := freed + AsSeq(row.components);
      case ToButton(b) => freed := AsSeq(b.caption) + AsSeq(b.customId) + AsSeq(b.url);
      case ToMenu(menu) => freed := DestroyMenu(menu, s.m);
      case ToInput(i) => freed := AsSeq(i.customId) + AsSeq(i.caption) + AsSeq(i.value) + AsSeq(i.placeholder);
      case ToNothing(_) =>
    }
    freed := freed + [c];
  }

  lemma JoinNoDuplicates(a: seq<object>, b: seq<object>)
    ensures Elements(a + b) == Elements(a) + Elements(b)
    ensures NoDuplicates(a) && NoDuplicates(b) && Elements(a) !! Elements(b) ==> NoDuplicates(a + b)
  {
    forall o | o in Elements(a) + Elements(b) ensures o in a + b {
    }
    if NoDuplicates(a) && NoDuplicates(b) && Elements(a) !! Elements(b) {
      forall i, j | 0 <= i < j < |a + b| ensures (a + b)[i] != (a + b)[j] {
        if i < |a| <= j {
          assert a[i] in Elements(a) && b[j - |a|] in Elements(b);
        }
      }
    }
  }

  lemma OptionFreesOnce(s: OptionShape)
    requires OptionSeparate(s)
    ensures NoDuplicates(OptionFrees(s))
    ensures Elements(OptionFrees(s)) == OptionFootprint(s) - if s.OptionAt? then Objects(s.emoji) else {}
  {
    if s.OptionAt? {
      JoinNoDuplicates(AsSeq(s.caption), AsSeq(s.value));
      JoinNoDuplicates(AsSeq(s.caption) + AsSeq(s.value), AsSeq(s.description));
      JoinNoDuplicates(AsSeq(s.caption) + AsSeq(s.value) + AsSeq(s.description), [s.o]);
    }
  }

  lemma {:induction false} OptionsFreeOnce(ss: seq<OptionShape>)
    requires OptionsSeparate(ss)
    ensures NoDuplicates(OptionsFrees(ss))
    ensures Elements(OptionsFrees(ss)) == OptionsFootprint(ss) - OptionsKept(ss)
    ensures OptionsKept(ss) <= OptionsFootprint(ss)
  {
    if ss != [] {
      OptionsFreeOnce(ss[..|ss| - 1]);
      OptionFreesOnce(ss[|ss| - 1]);
      JoinNoDuplicates(OptionsFrees(ss[..|ss| - 1]), OptionFrees(ss[|ss| - 1]));
    }
  }

  lemma ButtonFreesOnce(s: ButtonShape)
    requires ButtonSeparate(s)
    ensures NoDuplicates(ButtonFrees(s))
    ensures Elements(ButtonFrees(s)) == ButtonFootprint(s) - {s.button} - Objects(s.emoji)
  {
    JoinNoDuplicates(AsSeq(s.caption), AsSeq(s.customId));
    JoinNoDuplicates(AsSeq(s.caption) + AsSeq(s.customId), AsSeq(s.url));
  }

  lemma FourFreedOnce(a: seq<object>, b: seq<object>, c: seq<object>, d: seq<object>)
    requires NoDuplicates(a) && NoDuplicates(b) && NoDuplicates(c) && NoDuplicates(d)
    requires Elements(a) !! Elements(b) !! Elements(c) !! Elements(d)
    ensures NoDuplicates(a + b + c + d)
    ensures Elements(a + b + c + d) == Elements(a) + Elements(b) + Elements(c) + Elements(d)
  {
    JoinNoDuplicates(a, b);
    JoinNoDuplicates(a + b, c);
    JoinNoDuplicates(a + b + c, d);
  }

  lemma MenuFreesOnce(s: MenuShape)
    requires MenuSeparate(s)
    ensures NoDuplicates(MenuFrees(s))
    ensures Elements(MenuFrees(s)) == MenuFootprint(s) - {s.menu} - OptionsKept(s.choices)
    ensures OptionsKept(s.choices) <= MenuFootprint(s)
  {
    OptionsFreeOnce(s.choices);
    var i, o, a, p := AsSeq(s.customId), OptionsFrees(s.choices), AsSeq(s.options), AsSeq(s.placeholder);
    var all, kept := OptionsFootprint(s.choices), OptionsKept(s.choices);
    assert Elements(i) == Objects(s.customId) && Elements(a) == Objects(s.options);
    assert Elements(p) == Objects(s.placeholder);
    assert Elements(o) == all - kept;
    FourFreedOnce(i, o, a, p);
    assert MenuFrees(s) == i + o + a + p;
    SetsAddUp({s.menu}, Elements(i), all, kept, Elements(a), Elements(p));
  }

  lemma SetsAddUp(m: set<object>, i: set<object>, all: set<object>, kept: set<object>, a: set<object>, p: set<object>)
    requires kept <= all && m !! i && m !! all && m !! a && m !! p && i !! all && a !! all && p !! all
    ensures i + (all - kept) + a + p == m + i + a + all + p - m - kept
  {
  }

  lemma InputFreesOnce(s: InputShape)
    requires InputSeparate(s)
    ensures NoDuplicates(InputFrees(s))
    ensures Elements(InputFrees(s)) == InputFootprint(s) - {s.input}
  {
    JoinNoDuplicates(AsSeq(s.customId), AsSeq(s.caption));
    JoinNoDuplicates(AsSeq(s.customId) + AsSeq(s.caption), AsSeq(s.value));
    JoinNoDuplicates(AsSeq(s.customId) + AsSeq(s.caption) + AsSeq(s.value), AsSeq(s.placeholder));
  }

  /** Destroying a tree frees only its own objects, each once: all of them but the structure inside
      each component and the emojis, which are never freed. */
  lemma {:induction false} DestroyFreesOnce(s: Shape)
    requires Separate(s)
    ensures NoDuplicates(Frees(s))
    ensures Elements(Frees(s)) == Footprint(s) - Kept(s) && Kept(s) <= Footprint(s)
    decreases s
  {
    match s
    case Absent =>
    case Other(c, _) =>
    case Row(c, r, items, _, children) =>
      DestroyAllFreesOnce(children);
      JoinNoDuplicates(AllFrees(children), AsSeq(items));
      JoinNoDuplicates(AllFrees(children) + AsSeq(items), [c]);
    case Press(c, b) =>
      ButtonFreesOnce(b);
      JoinNoDuplicates(ButtonFrees(b), [c]);
    case Menu(c, m) =>
      MenuFreesOnce(m);
      JoinNoDuplicates(MenuFrees(m), [c]);
    case Input(c, i) =>
      InputFreesOnce(i);
      JoinNoDuplicates(InputFrees(i), [c]);
  }

  lemma {:induction false} DestroyAllFreesOnce(ss: seq<Shape>)
    requires SeparateAll(ss)
    ensures NoDuplicates(AllFrees(ss))
    ensures Elements(AllFrees(ss)) == FootprintAll(ss) - AllKept(ss) && AllKept(ss) <= FootprintAll(ss)
    decreases ss
  {
    if ss != [] {
      DestroyAllFreesOnce(ss[..|ss| - 1]);
      DestroyFreesOnce(ss[|ss| - 1]);
      JoinNoDuplicates(AllFrees(ss[..|ss| - 1]), Frees(ss[|ss| - 1]));
    }
  }

  lemma TwiceInTwo(a: seq<object>, b: seq<object>, o: object)
    requires o in a && o in b
    ensures !NoDuplicates(a + b)
  {
    var i :| 0 <= i < |a| && a[i] == o;
    var j :| 0 <= j < |b| && b[j] == o;
    assert (a + b)[i] == (a + b)[|a| + j];
  }

  lemma DisjointFreesOnce(s: Shape, t: Shape)
    requires Separate(s) && Separate(t) && Footprint(s) !! Footprint(t)
    ensures NoDuplicates(Frees(s) + Frees(t))
  {
    DestroyFreesOnce(s);
    DestroyFreesOnce(t);
    JoinNoDuplicates(Frees(s), Frees(t));
  }

  /** Source and copy can both be destroyed without freeing anything twice exactly when the copy
      shares no option array. */
  lemma BothCanBeDestroyedIff(s: Shape, t: Shape, live: set<object>, after: set<object>)
    requires Separate(s) && Footprint(s) <= live && IsCopy(s, t) && Accounted(s, t, live, after)
    ensures NoDuplicates(Frees(s) + Frees(t)) <==> Shared(s) == {}
  {
    if Shared(s) == {} {
      CopyIsDisjointIff(s, t, live, after);
      DisjointFreesOnce(s, t);
    } else {
      var o :| o in Shared(s);
      SharedIsFreed(s);
      SharedIsFreed(t);
      TwiceInTwo(Frees(s), Frees(t), o);
    }
  }

  /** An array is there only if something is counted in it. */
  ghost predicate ArraysAreCounted(s: Shape)
    decreases s
  {
    match s
    case Row(_, _, items, count, children) =>
      (items != null ==> count > 0) && forall k :: 0 <= k < |children| ==> ArraysAreCounted(children[k])
    case Menu(_, m) => m.options != null ==> m.count > 0
    case _ => true
  }

  lemma {:induction false} CountedArraysAreNotShared(s: Shape)
    requires ArraysAreCounted(s)
    ensures Shared(s) == {}
    decreases s
  {
    if s.Row? {
      CountedChildrenShareNothing(s.children);
    }
  }

  lemma {:induction false} CountedChildrenShareNothing(ss: seq<Shape>)
    requires forall k :: 0 <= k < |ss| ==> ArraysAreCounted(ss[k])
    ensures SharedAll(ss) == {}
    decreases ss
  {
    if ss != [] {
      assert forall k :: 0 <= k < |ss| - 1 ==> ss[..|ss| - 1][k] == ss[k];
      CountedChildrenShareNothing(ss[..|ss| - 1]);
      CountedArraysAreNotShared(ss[|ss| - 1]);
    }
  }

  /** So a copy of such a tree has no object in common with it, and both can be destroyed. */
  lemma CopyOfCountedIsSafe(s: Shape, t: Shape, live: set<object>, after: set<object>)
    requires ArraysAreCounted(s) && Separate(s) && Footprint(s) <= live
    requires IsCopy(s, t) && Accounted(s, t, live, after)
    ensures Footprint(s) !! Footprint(t) && NoDuplicates(Frees(s) + Frees(t))
  {
    CountedArraysAreNotShared(s);
    CopyIsDisjointIff(s, t, live, after);
    BothCanBeDestroyedIff(s, t, live, after);
  }

  /** A menu built by hand with room for an option but none counted: destroying it and its copy frees
      the array twice. */
  method SharedArrayIsFreedTwice() returns (freed: seq<object>)
    ensures !NoDuplicates(freed)
  {
    var options := new SelectOption?[1](_ => null);
    var menu := new SelectMenu(null, options, 0, null, MenuPlain(1, 1, false));
    var source := new Component(ToMenu(menu));
    ghost var s := Menu(source, MenuShape(menu, null, options, 0, [], null, MenuPlain(1, 1, false)));
    assert options in Shared(s) && MenuHolds(s.m) && Holds(s);
    ghost var live: set<object> := {source, menu, options};
    var copy;
    ghost var t, after;
    copy, t, after := Copy(source, s, live);
    SharedIsFreed(s);
    SharedIsFreed(t);
    var first := Destroy(source, s, after);
    assert Content(t) == Trimmed(Content(s)) && t.Menu? && t.m.choices == [];
    var second := Destroy(copy, t, after);
    TwiceInTwo(first, second, options);
    freed := first + second;
  }

  lemma {:induction false} SharedIsFreed(s: Shape)
    ensures forall o :: o in Shared(s) ==> o in Frees(s)
    decreases s
  {
    if s.Row? {
      AllSharedIsFreed(s.children);
    }
  }

  lemma {:induction false} AllSharedIsFreed(ss: seq<Shape>)
    ensures forall o :: o in SharedAll(ss) ==> o in AllFrees(ss)
    decreases ss
  {
    if ss != [] {
      AllSharedIsFreed(ss[..|ss| - 1]);
      SharedIsFreed(ss[|ss| - 1]);
    }
  }
}
