/** What a copy of a component tree contains and what is read from JSON, field by field. */
module ComponentContents {
  import opened Optional
  import opened Component
  import opened ComponentParser

  // ---------- What a copy keeps ----------

  predicate OptionKept(s: OptionTree, t: OptionTree) {
    match s
    case NoChoice => t.NoChoice?
    case Choice(caption, value, description, _, preset) =>
      && t.Choice? && CutTo(caption, t.caption, 101) && CutTo(value, t.value, 101)
      && CutTo(description, t.description, 101) && !t.emoji && t.preset == preset
  }

  predicate ButtonKept(s: ButtonTree, t: ButtonTree) {
    && t.style == s.style && CutTo(s.caption, t.caption, 101) && !t.emoji && CutTo(s.customId, t.customId, 101)
    && CutTo(s.url, t.url, 2050) && t.disabled == s.disabled
  }

  predicate MenuKept(s: MenuTree, t: MenuTree) {
    && CutTo(s.customId, t.customId, 101) && CutTo(s.placeholder, t.placeholder, 151)
    && t.count == s.count && t.plain == s.plain && |t.choices| == |s.choices|
    && forall k :: 0 <= k < |s.choices| ==> OptionKept(s.choices[k], t.choices[k])
  }

  predicate InputKept(s: InputTree, t: InputTree) {
    && CutTo(s.customId, t.customId, 101) && CutTo(s.caption, t.caption, 50) && CutTo(s.value, t.value, 4001)
    && CutTo(s.placeholder, t.placeholder, 101) && t.plain == s.plain
  }

  /** `t` is `s` with every string cut to the limit of its field and no emoji, everything in its place. */
  predicate TreeKept(s: Tree, t: Tree)
    decreases s
  {
    match s
    case Nothing => t.Nothing?
    case Unknown(kind) => t == Unknown(kind)
    case RowOf(count, children) =>
      && t.RowOf? && t.count == count && |t.children| == |children|
      && forall k :: 0 <= k < |children| ==> TreeKept(children[k], t.children[k])
    case ButtonOf(b) => t.ButtonOf? && ButtonKept(b, t.b)
    case MenuOf(m) => t.MenuOf? && MenuKept(m, t.m)
    case InputOf(i) => t.InputOf? && InputKept(i, t.i)
  }

  lemma CutIsCutTo(s: Str, limit: nat)
    ensures CutTo(s, Cut(s, limit), limit)
    ensures Cut(s, limit) == s <==> Short(s, limit)
  {
  }

  lemma {:induction false} TrimmedAt(ts: seq<Tree>, k: nat)
    requires k < |ts|
    ensures |AllTrimmed(ts)| == |ts| && AllTrimmed(ts)[k] == Trimmed(ts[k])
  {
    if |ts| > 1 {
      TrimmedAt(ts[..|ts| - 1], if k < |ts| - 1 then k else 0);
    }
  }

  lemma {:induction false} OptionTrimmedAt(ts: seq<OptionTree>, k: nat)
    requires k < |ts|
    ensures |OptionsTrimmed(ts)| == |ts| && OptionsTrimmed(ts)[k] == OptionTrimmed(ts[k])
  {
    if |ts| > 1 {
      OptionTrimmedAt(ts[..|ts| - 1], if k < |ts| - 1 then k else 0);
    }
  }

  lemma TrimmedOptionIsKept(t: OptionTree)
    ensures OptionKept(t, OptionTrimmed(t))
    ensures OptionTrimmed(t) == t <==> OptionWithinLimits(t)
  {
    match t
    case NoChoice =>
    case Choice(caption, value, description, _, _) =>
      CutIsCutTo(caption, 101);
      CutIsCutTo(value, 101);
      CutIsCutTo(description, 101);
  }

  lemma TrimmedButtonIsKept(t: ButtonTree)
    ensures ButtonKept(t, ButtonTrimmed(t))
    ensures ButtonTrimmed(t) == t <==> ButtonWithinLimits(t)
  {
    CutIsCutTo(t.caption, 101);
    CutIsCutTo(t.customId, 101);
    CutIsCutTo(t.url, 2050);
  }

  lemma TrimmedInputIsKept(t: InputTree)
    ensures InputKept(t, InputTrimmed(t))
    ensures InputTrimmed(t) == t <==> InputWithinLimits(t)
  {
    CutIsCutTo(t.customId, 101);
    CutIsCutTo(t.caption, 50);
    CutIsCutTo(t.value, 4001);
    CutIsCutTo(t.placeholder, 101);
  }

  lemma OptionsAreKept(ts: seq<OptionTree>)
    ensures |OptionsTrimmed(ts)| == |ts|
    ensures forall k :: 0 <= k < |ts| ==> OptionKept(ts[k], OptionsTrimmed(ts)[k])
    ensures OptionsTrimmed(ts) == ts <==> forall k :: 0 <= k < |ts| ==> OptionWithinLimits(ts[k])
  {
    if ts != [] {
      OptionTrimmedAt(ts, 0);
    }
    forall k | 0 <= k < |ts|
      ensures OptionKept(ts[k], OptionsTrimmed(ts)[k])
      ensures OptionsTrimmed(ts)[k] == ts[k] <==> OptionWithinLimits(ts[k])
    {
      OptionTrimmedAt(ts, k);
      TrimmedOptionIsKept(ts[k]);
    }
  }

  lemma TrimmedMenuIsKept(t: MenuTree)
    ensures MenuKept(t, MenuTrimmed(t))
    ensures MenuTrimmed(t) == t <==> MenuWithinLimits(t)
  {
    CutIsCutTo(t.customId, 101);
    CutIsCutTo(t.placeholder, 151);
    OptionsAreKept(t.choices);
  }

  /** What a copy contains, for every tree: each string that of the same field, up to the limit of the
      field; no emoji; and all else unchanged. */
  lemma {:induction false} TrimmedIsKept(t: Tree)
    ensures TreeKept(t, Trimmed(t))
    decreases t
  {
    match t
    case Nothing =>
    case Unknown(_) =>
    case RowOf(_, children) =>
      if children != [] {
        TrimmedAt(children, 0);
      }
      forall k | 0 <= k < |children| ensures TreeKept(children[k], AllTrimmed(children)[k]) {
        TrimmedAt(children, k);
        TrimmedIsKept(children[k]);
      }
    case ButtonOf(b) => TrimmedButtonIsKept(b);
    case MenuOf(m) => TrimmedMenuIsKept(m);
    case InputOf(i) => TrimmedInputIsKept(i);
  }

  /** So it is of every copy on the heap. */
  lemma CopyIsKept(s: Shape, t: Shape)
    requires IsCopy(s, t)
    ensures TreeKept(Content(s), Content(t))
  {
    TrimmedIsKept(Content(s));
  }

  // ---------- What a copy leaves as it is ----------

  predicate Short(s: Str, limit: nat) {
    s.Some? ==> |s.value| <= limit
  }

  predicate OptionWithinLimits(t: OptionTree) {
    t.Choice? ==> Short(t.caption, 101) && Short(t.value, 101) && Short(t.description, 101) && !t.emoji
  }

  predicate ButtonWithinLimits(t: ButtonTree) {
    Short(t.caption, 101) && Short(t.customId, 101) && Short(t.url, 2050) && !t.emoji
  }

  predicate MenuWithinLimits(t: MenuTree) {
    && Short(t.customId, 101) && Short(t.placeholder, 151)
    && forall k :: 0 <= k < |t.choices| ==> OptionWithinLimits(t.choices[k])
  }

  predicate InputWithinLimits(t: InputTree) {
    Short(t.customId, 101) && Short(t.caption, 50) && Short(t.value, 4001) && Short(t.placeholder, 101)
  }

  predicate WithinLimits(t: Tree)
    decreases t
  {
    match t
    case RowOf(_, children) => forall k :: 0 <= k < |children| ==> WithinLimits(children[k])
    case ButtonOf(b) => ButtonWithinLimits(b)
    case MenuOf(m) => MenuWithinLimits(m)
    case InputOf(i) => InputWithinLimits(i)
    case _ => true
  }

  /** A copy has the very contents of its source exactly if no string is too long for its field and there
      is no emoji. */
  lemma {:induction false} CopyIsExactIff(t: Tree)
    ensures Trimmed(t) == t <==> WithinLimits(t)
    decreases t
  {
    match t
    case Nothing =>
    case Unknown(_) =>
    case RowOf(_, children) =>
      if children != [] {
        TrimmedAt(children, 0);
      }
      forall k | 0 <= k < |children| ensures AllTrimmed(children)[k] == children[k] <==> WithinLimits(children[k]) {
        TrimmedAt(children, k);
        CopyIsExactIff(children[k]);
      }
      assert AllTrimmed(children) == children <==> forall k :: 0 <= k < |children| ==> WithinLimits(children[k]);
    case ButtonOf(b) => TrimmedButtonIsKept(b);
    case MenuOf(m) => TrimmedMenuIsKept(m);
    case InputOf(i) => TrimmedInputIsKept(i);
  }

  // ---------- What is read from JSON ----------

  predicate OptionRead(j: OptionJson, t: OptionTree) {
    && t.Choice? && CutTo(j.caption, t.caption, 4097) && CutTo(j.value, t.value, 4097)
    && CutTo(j.description, t.description, 4097) && !t.emoji && t.preset == (j.preset == Some(true))
  }

  predicate OptionsRead(js: seq<OptionJson>, ts: seq<OptionTree>) {
    |ts| == |js| && forall k :: 0 <= k < |js| ==> OptionRead(js[k], ts[k])
  }

  function Given(o: Option<int>, default: int): int {
    if o.Some? then o.value else default
  }

  /** Each field of the tree is that of the JSON, or its default, for the kinds 1 to 4. */
  predicate TreeRead(j: Json, t: Tree)
    decreases j
  {
    match t
    case RowOf(count, children) =>
      && j.kind == Some(1) && count == |j.components| == |children|
      && forall k :: 0 <= k < |j.components| ==> TreeRead(j.components[k], children[k])
    case ButtonOf(b) =>
      && j.kind == Some(2) && b.style == Given(j.style, 1) && CutTo(j.caption, b.caption, 4097) && !b.emoji
      && CutTo(j.customId, b.customId, 4097) && CutTo(j.url, b.url, 4097) && b.disabled == (j.disabled == Some(true))
    case MenuOf(m) =>
      && j.kind == Some(3) && CutTo(j.customId, m.customId, 4097) && m.count == |j.options|
      && OptionsRead(j.options, m.choices) && CutTo(j.placeholder, m.placeholder, 4097)
      && m.plain == MenuPlain(Given(j.minValues, 1), Given(j.maxValues, 1), j.disabled == Some(true))
    case InputOf(i) =>
      && j.kind == Some(4) && CutTo(j.customId, i.customId, 4097) && CutTo(j.caption, i.caption, 4097)
      && CutTo(j.value, i.value, 4097) && CutTo(j.placeholder, i.placeholder, 4097)
      && i.plain == InputPlain(Given(j.style, 1), Given(j.minLength, 0), Given(j.maxLength, 1),
                               j.required == Some(true))
    case Unknown(kind) => kind == Given(j.kind, 0) && kind !in {1, 2, 3, 4}
    case Nothing => false
  }

  lemma {:induction false} ReadAt(js: seq<Json>, k: nat)
    requires k < |js|
    ensures |ReadAll(js)| == |js| && ReadAll(js)[k] == Read(js[k])
  {
    if |js| > 1 {
      ReadAt(js[..|js| - 1], if k < |js| - 1 then k else 0);
    }
  }

  lemma OptionIsRead(j: OptionJson)
    ensures OptionRead(j, ReadOption(j))
  {
    CutIsCutTo(j.caption, 4097);
    CutIsCutTo(j.value, 4097);
    CutIsCutTo(j.description, 4097);
  }

  lemma {:induction false} OptionsAreRead(js: seq<OptionJson>)
    ensures OptionsRead(js, ReadOptions(js))
  {
    if js != [] {
      OptionsAreRead(js[..|js| - 1]);
      OptionIsRead(js[|js| - 1]);
    }
  }

  /** What the parser reads, for every JSON. */
  lemma {:induction false} TreeIsRead(j: Json)
    ensures TreeRead(j, Read(j))
    decreases j
  {
    var kind := Or(j.kind, 0);
    if kind == ACTION_ROW {
      if j.components != [] {
        ReadAt(j.components, 0);
      }
      forall k | 0 <= k < |j.components| ensures TreeRead(j.components[k], ReadAll(j.components)[k]) {
        ReadAt(j.components, k);
        TreeIsRead(j.components[k]);
      }
    } else if kind == SELECT_MENU {
      OptionsAreRead(j.options);
    }
  }

  /** So it is of every parsed tree on the heap. */
  lemma ParseIsRead(j: Json, t: Shape)
    requires IsParse(j, t)
    ensures TreeRead(j, Content(t))
  {
    TreeIsRead(j);
  }
}
