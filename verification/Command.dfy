/** Emitting a command as JSON, with the required options of every level put first. */
module Command {

  import opened Optional
  import Reference

  datatype Json =
    | Text(s: string) | Number(x: real) | Bool(b: bool) | List(items: seq<Json>) | Object(fields: seq<Field>)

  datatype Field = Field(name: string, value: Json)

  /** A choice of an option. Localisations are given as JSON; only a numeric value is ever emitted. */
  datatype CommandChoice = CommandChoice(name: string, locales: Option<Json>, number: real)

  /** An option with its sub-options. */
  datatype CommandOption = CommandOption(
    name: string, description: string, nameLocales: Option<Json>, descriptionLocales: Option<Json>, kind: int,
    required: bool, choices: seq<CommandChoice>, options: seq<CommandOption>, channelTypes: seq<int>,
    minValue: real, maxValue: real, minLength: int, maxLength: int, autocomplete: bool)

  datatype Command = Command(
    name: Option<string>, kind: int, description: string, nameLocales: Option<Json>, descriptionLocales: Option<Json>,
    options: seq<CommandOption>, permissions: Option<string>, dmPermission: bool, version: nat)

  /** The option types that have a length or a range. */
  const STRING_TYPE := 3
  const INTEGER_TYPE := 4
  const NUMBER_TYPE := 10

  // ---------- The order ----------

  function Only(os: seq<CommandOption>, required: bool): (r: seq<CommandOption>)
    ensures |r| <= |os| && forall o :: o in r ==> o.required == required
  {
    if os == [] then []
    else Only(os[..|os| - 1], required) + if os[|os| - 1].required == required then [os[|os| - 1]] else []
  }

  function RequiredFirst(os: seq<CommandOption>): seq<CommandOption> {
    Only(os, true) + Only(os, false)
  }

  /** The tree with every level rearranged. */
  function Reordered(o: CommandOption): CommandOption
    decreases o
  {
    o.(options := RequiredFirst(AllReordered(o.options)))
  }

  function AllReordered(os: seq<CommandOption>): (r: seq<CommandOption>)
    ensures |r| == |os|
    decreases os
  {
    if os == [] then [] else AllReordered(os[..|os| - 1]) + [Reordered(os[|os| - 1])]
  }

  // ---------- The rendering, in the order given ----------

  /** The fields of an object in the order they are added, each only if there is a value for it. */
  function Emit(keys: seq<string>, values: seq<Option<Json>>): seq<Field>
    requires |keys| == |values|
  {
    if keys == [] then []
    else
      var n := |keys| - 1;
      Emit(keys[..n], values[..n]) + if values[n].Some? then [Field(keys[n], values[n].value)] else []
  }

  const CHOICE_KEYS: seq<string> := ["name", "name_localizations", "value"]

  const OPTION_KEYS: seq<string> := [
    "name", "description", "name_localizations", "description_localizations", "required", "choices", "options",
    "channel_types", "min_value", "max_value", "min_length", "max_length", "autocomplete"]

  const COMMAND_KEYS: seq<string> := [
    "name", "type", "description", "name_localizations", "description_localizations", "options",
    "default_member_permissions", "dm_permission", "version"]

  function When<T>(c: bool, x: T): Option<T> {
    if c then Some(x) else None
  }

  function ListOf(items: seq<Json>): Option<Json> {
    When(items != [], List(items))
  }

  predicate Ranged(kind: int) {
    kind == INTEGER_TYPE || kind == NUMBER_TYPE
  }

  function RenderedChoice(c: CommandChoice, kind: int): Json {
    Object(Emit(CHOICE_KEYS, [Some(Text(c.name)), c.locales, When(Ranged(kind), Number(c.number))]))
  }

  function RenderedChoices(cs: seq<CommandChoice>, kind: int): (r: seq<Json>)
    ensures |r| == |cs| && forall k :: 0 <= k < |cs| ==> r[k] == RenderedChoice(cs[k], kind)
  {
    seq(|cs|, k requires 0 <= k < |cs| => RenderedChoice(cs[k], kind))
  }

  function Numbers(ns: seq<int>): (r: seq<Json>)
    ensures |r| == |ns| && forall k :: 0 <= k < |ns| ==> r[k] == Number(ns[k] as real)
  {
    seq(|ns|, k requires 0 <= k < |ns| => Number(ns[k] as real))
  }

  function OptionValues(o: CommandOption): (r: seq<Option<Json>>)
    ensures |r| == |OPTION_KEYS|
    decreases o, 0
  {
    [Some(Text(o.name)), Some(Text(o.description)), o.nameLocales, o.descriptionLocales, Some(Bool(o.required)),
     ListOf(RenderedChoices(o.choices, o.kind)), ListOf(AllRendered(o.options)), ListOf(Numbers(o.channelTypes)),
     When(Ranged(o.kind), Number(o.minValue)), When(Ranged(o.kind), Number(o.maxValue)),
     When(o.kind == STRING_TYPE, Number(o.minLength as real)), When(o.kind == STRING_TYPE, Number(o.maxLength as real)),
     Some(Bool(o.autocomplete))]
  }

  function Rendered(o: CommandOption): Json
    decreases o, 1
  {
    Object(Emit(OPTION_KEYS, OptionValues(o)))
  }

  function AllRendered(os: seq<CommandOption>): (r: seq<Json>)
    ensures |r| == |os|
    decreases os
  {
    if os == [] then [] else AllRendered(os[..|os| - 1]) + [Rendered(os[|os| - 1])]
  }

  function CommandValues(c: Command): (r: seq<Option<Json>>)
    requires c.name.Some?
    ensures |r| == |COMMAND_KEYS|
  {
    [Some(Text(c.name.value)), When(c.kind != 0, Number(c.kind as real)), Some(Text(c.description)), c.nameLocales,
     c.descriptionLocales, ListOf(AllRendered(c.options)),
     match c.permissions case Some(p) => Some(Text(p)) case None => None,
     Some(Bool(c.dmPermission)), When(c.version != 0, Text(Reference.Decimal(c.version)))]
  }

  function CommandRendered(c: Command): seq<Field>
    requires c.name.Some?
  {
    Emit(COMMAND_KEYS, CommandValues(c))
  }

  // ---------- Reading emitted JSON back ----------

  /** Where the first field of this name is. */
  function IndexOf(fields: seq<Field>, name: string): (i: nat)
    ensures i <= |fields| && (i < |fields| ==> fields[i].name == name)
  {
    if fields == [] || fields[0].name == name then 0 else 1 + IndexOf(fields[1..], name)
  }

  function Get(fields: seq<Field>, name: string): Option<Json> {
    var i := IndexOf(fields, name);
    if i < |fields| then Some(fields[i].value) else None
  }

  ghost predicate Distinct(keys: seq<string>) {
    forall i, j :: 0 <= i < j < |keys| ==> keys[i] != keys[j]
  }

  lemma {:induction false} GetInConcat(a: seq<Field>, b: seq<Field>, name: string)
    ensures Get(a + b, name) == if Get(a, name).Some? then Get(a, name) else Get(b, name)
  {
    if a == [] {
      assert a + b == b;
    } else {
      assert (a + b)[1..] == a[1..] + b && (a + b)[0] == a[0];
      GetInConcat(a[1..], b, name);
    }
  }

  lemma {:induction false} GetOfOther(keys: seq<string>, values: seq<Option<Json>>, name: string)
    requires |keys| == |values| && name !in keys
    ensures Get(Emit(keys, values), name) == None
  {
    if keys != [] {
      var n := |keys| - 1;
      GetOfOther(keys[..n], values[..n], name);
      assert keys[n] != name;
      GetInConcat(Emit(keys[..n], values[..n]),
                  if values[n].Some? then [Field(keys[n], values[n].value)] else [], name);
    }
  }

  /** Each field of an emitted object is found under its name, and is missing if it had no value. */
  lemma {:induction false} GetOfEmitted(keys: seq<string>, values: seq<Option<Json>>, i: nat)
    requires |keys| == |values| && Distinct(keys) && i < |keys|
    ensures Get(Emit(keys, values), keys[i]) == values[i]
  {
    var n := |keys| - 1;
    if i < n {
      GetOfEmitted(keys[..n], values[..n], i);
    } else {
      GetOfOther(keys[..n], values[..n], keys[n]);
    }
    GetInConcat(Emit(keys[..n], values[..n]),
                if values[n].Some? then [Field(keys[n], values[n].value)] else [], keys[i]);
  }

  lemma KeysDiffer()
    ensures Distinct(CHOICE_KEYS) && Distinct(OPTION_KEYS) && Distinct(COMMAND_KEYS)
  {
    assert OPTION_KEYS[5][0] != OPTION_KEYS[6][0];
    assert OPTION_KEYS[8][1] != OPTION_KEYS[9][1];
    assert OPTION_KEYS[10][1] != OPTION_KEYS[11][1];
    assert COMMAND_KEYS[0][0] != COMMAND_KEYS[1][0];
    assert COMMAND_KEYS[5][0] != COMMAND_KEYS[8][0];
  }

  /** An option as a reader of the JSON sees it, by field name. */
  datatype View = View(name: Option<Json>, description: Option<Json>, required: Option<Json>, options: seq<View>)

  function ReadOption(j: Json): View
    decreases j
  {
    match j
    case Object(fields) =>
      var i := IndexOf(fields, "options");
      View(Get(fields, "name"), Get(fields, "description"), Get(fields, "required"),
           if i < |fields| && fields[i].value.List? then ReadOptions(fields[i].value.items) else [])
    case _ => View(None, None, None, [])
  }

  function ReadOptions(js: seq<Json>): seq<View>
    decreases js
  {
    if js == [] then [] else ReadOptions(js[..|js| - 1]) + [ReadOption(js[|js| - 1])]
  }

  function Viewed(o: CommandOption): View
    decreases o
  {
    View(Some(Text(o.name)), Some(Text(o.description)), Some(Bool(o.required)), AllViewed(o.options))
  }

  function AllViewed(os: seq<CommandOption>): seq<View>
    decreases os
  {
    if os == [] then [] else AllViewed(os[..|os| - 1]) + [Viewed(os[|os| - 1])]
  }

  /** The fields of an emitted option that do not depend on its kind, by name. */
  lemma OptionFields(o: CommandOption)
    ensures var fields := Rendered(o).fields;
      && Get(fields, "name") == Some(Text(o.name)) && Get(fields, "description") == Some(Text(o.description))
      && Get(fields, "name_localizations") == o.nameLocales
      && Get(fields, "description_localizations") == o.descriptionLocales
      && Get(fields, "required") == Some(Bool(o.required))
      && Get(fields, "options") == (if o.options == [] then None else Some(List(AllRendered(o.options))))
      && Get(fields, "autocomplete") == Some(Bool(o.autocomplete))
  {
    var values := OptionValues(o);
    KeysDiffer();
    GetOfEmitted(OPTION_KEYS, values, 0);
    GetOfEmitted(OPTION_KEYS, values, 1);
    GetOfEmitted(OPTION_KEYS, values, 2);
    GetOfEmitted(OPTION_KEYS, values, 3);
    GetOfEmitted(OPTION_KEYS, values, 4);
    GetOfEmitted(OPTION_KEYS, values, 6);
    GetOfEmitted(OPTION_KEYS, values, 12);
  }

  /** And those that do: a range for integers (4) and numbers (10), lengths for strings (3), the types of
      channels and the choices if there are any. */
  lemma OptionLimits(o: CommandOption)
    ensures var fields := Rendered(o).fields;
      && Get(fields, "min_value") == (if o.kind == 4 || o.kind == 10 then Some(Number(o.minValue)) else None)
      && Get(fields, "max_value") == (if o.kind == 4 || o.kind == 10 then Some(Number(o.maxValue)) else None)
      && Get(fields, "min_length") == (if o.kind == 3 then Some(Number(o.minLength as real)) else None)
      && Get(fields, "max_length") == (if o.kind == 3 then Some(Number(o.maxLength as real)) else None)
      && Get(fields, "channel_types") == (if o.channelTypes == [] then None else Some(List(Numbers(o.channelTypes))))
      && Get(fields, "choices") == (if o.choices == [] then None else Some(List(RenderedChoices(o.choices, o.kind))))
  {
    var values := OptionValues(o);
    KeysDiffer();
    GetOfEmitted(OPTION_KEYS, values, 5);
    GetOfEmitted(OPTION_KEYS, values, 7);
    GetOfEmitted(OPTION_KEYS, values, 8);
    GetOfEmitted(OPTION_KEYS, values, 9);
    GetOfEmitted(OPTION_KEYS, values, 10);
    GetOfEmitted(OPTION_KEYS, values, 11);
  }

  /** A choice has its name, and its value if the option is an integer or a number. */
  lemma ChoiceFields(c: CommandChoice, kind: int)
    ensures var fields := RenderedChoice(c, kind).fields;
      && Get(fields, "name") == Some(Text(c.name)) && Get(fields, "name_localizations") == c.locales
      && Get(fields, "value") == if kind == 4 || kind == 10 then Some(Number(c.number)) else None
  {
    var values := [Some(Text(c.name)), c.locales, When(Ranged(kind), Number(c.number))];
    KeysDiffer();
    GetOfEmitted(CHOICE_KEYS, values, 0);
    GetOfEmitted(CHOICE_KEYS, values, 1);
    GetOfEmitted(CHOICE_KEYS, values, 2);
  }

  lemma CommandFields(c: Command)
    requires c.name.Some?
    ensures var fields := CommandRendered(c);
      && Get(fields, "name") == Some(Text(c.name.value)) && Get(fields, "description") == Some(Text(c.description))
      && Get(fields, "type") == (if c.kind == 0 then None else Some(Number(c.kind as real)))
      && Get(fields, "options") == (if c.options == [] then None else Some(List(AllRendered(c.options))))
  {
    var values := CommandValues(c);
    KeysDiffer();
    GetOfEmitted(COMMAND_KEYS, values, 0);
    GetOfEmitted(COMMAND_KEYS, values, 1);
    GetOfEmitted(COMMAND_KEYS, values, 2);
    GetOfEmitted(COMMAND_KEYS, values, 5);
  }

  lemma CommandSettings(c: Command)
    requires c.name.Some?
    ensures var fields := CommandRendered(c);
      && Get(fields, "name_localizations") == c.nameLocales
      && Get(fields, "description_localizations") == c.descriptionLocales
      && Get(fields, "default_member_permissions")
         == (if c.permissions.Some? then Some(Text(c.permissions.value)) else None)
      && Get(fields, "dm_permission") == Some(Bool(c.dmPermission))
      && Get(fields, "version") == (if c.version == 0 then None else Some(Text(Reference.Decimal(c.version))))
  {
    var values := CommandValues(c);
    KeysDiffer();
    GetOfEmitted(COMMAND_KEYS, values, 3);
    GetOfEmitted(COMMAND_KEYS, values, 4);
    GetOfEmitted(COMMAND_KEYS, values, 6);
    GetOfEmitted(COMMAND_KEYS, values, 7);
    GetOfEmitted(COMMAND_KEYS, values, 8);
  }

  /** Reading an emitted tree by field name gives the tree, for every tree. */
  lemma {:induction false} ReadBack(o: CommandOption)
    ensures ReadOption(Rendered(o)) == Viewed(o)
    decreases o
  {
    OptionFields(o);
    ReadAllBack(o.options);
    assert ReadOptions([]) == [];
  }

  lemma {:induction false} ReadAllBack(os: seq<CommandOption>)
    ensures ReadOptions(AllRendered(os)) == AllViewed(os)
    decreases os
  {
    if os != [] {
      ReadAllBack(os[..|os| - 1]);
      ReadBack(os[|os| - 1]);
      var r := AllRendered(os);
      assert r[..|r| - 1] == AllRendered(os[..|os| - 1]);
    }
  }

  // ---------- What the order is ----------

  ghost predicate RequiredBeforeOptional(os: seq<CommandOption>) {
    forall i, j :: 0 <= i < j < |os| && os[j].required ==> os[i].required
  }

  ghost predicate OrderedThroughout(o: CommandOption)
    decreases o
  {
    RequiredBeforeOptional(o.options) && forall k :: 0 <= k < |o.options| ==> OrderedThroughout(o.options[k])
  }

  lemma {:induction false} OnlyOfConcat(a: seq<CommandOption>, b: seq<CommandOption>, required: bool)
    ensures Only(a + b, required) == Only(a, required) + Only(b, required)
  {
    if b == [] {
      assert a + b == a;
    } else {
      assert (a + b)[..|a + b| - 1] == a + b[..|b| - 1];
      OnlyOfConcat(a, b[..|b| - 1], required);
    }
  }

  lemma OnlyOfUniform(os: seq<CommandOption>, required: bool)
    requires forall o :: o in os ==> o.required == required
    ensures Only(os, required) == os && Only(os, !required) == []
  {
    OnlyKeepsAll(os, required);
    OnlyKeepsNone(os, !required);
  }

  lemma {:induction false} OnlyKeepsAll(os: seq<CommandOption>, required: bool)
    requires forall o :: o in os ==> o.required == required
    ensures Only(os, required) == os
  {
    if os != [] {
      var front, last := os[..|os| - 1], os[|os| - 1];
      OnlyKeepsAll(front, required);
      assert last in os && os == front + [last];
      OnlyOfLast(front, last, required);
    }
  }

  lemma {:induction false} OnlyKeepsNone(os: seq<CommandOption>, required: bool)
    requires forall o :: o in os ==> o.required != required
    ensures Only(os, required) == []
  {
    if os != [] {
      var front, last := os[..|os| - 1], os[|os| - 1];
      OnlyKeepsNone(front, required);
      assert last in os && os == front + [last];
      OnlyOfLast(front, last, required);
    }
  }

  lemma OnlyOfLast(front: seq<CommandOption>, last: CommandOption, required: bool)
    ensures Only(front + [last], required) == Only(front, required) + if last.required == required then [last] else []
  {
    assert (front + [last])[..|front|] == front;
  }

  lemma {:induction false} OnlySplits(os: seq<CommandOption>)
    ensures multiset(Only(os, true)) + multiset(Only(os, false)) == multiset(os)
  {
    if os != [] {
      var front, last := os[..|os| - 1], os[|os| - 1];
      OnlySplits(front);
      assert os == front + [last];
      OneMoreMember(Only(front, true), Only(front, false), front, last);
      assert Only(os, last.required) == Only(front, last.required) + [last];
      assert Only(os, !last.required) == Only(front, !last.required);
    }
  }

  lemma OneMoreMember(a: seq<CommandOption>, b: seq<CommandOption>, os: seq<CommandOption>, o: CommandOption)
    requires multiset(a) + multiset(b) == multiset(os)
    ensures multiset(a + [o]) + multiset(b) == multiset(os + [o])
    ensures multiset(a) + multiset(b + [o]) == multiset(os + [o])
  {
  }

  lemma RequiredFirstIsPermutation(os: seq<CommandOption>)
    ensures multiset(RequiredFirst(os)) == multiset(os) && |RequiredFirst(os)| == |os|
  {
    OnlySplits(os);
    assert |multiset(RequiredFirst(os))| == |multiset(os)|;
  }

  lemma RequiredComeFirst(os: seq<CommandOption>)
    ensures RequiredBeforeOptional(RequiredFirst(os))
  {
    var a, b := Only(os, true), Only(os, false);
    forall k | 0 <= k < |RequiredFirst(os)| ensures RequiredFirst(os)[k].required <==> k < |a| {
      assert RequiredFirst(os)[k] == if k < |a| then a[k] else b[k - |a|];
    }
  }

  lemma OnlyOfArranged(os: seq<CommandOption>, required: bool)
    ensures Only(RequiredFirst(os), required) == Only(os, required)
  {
    OnlyOfConcat(Only(os, true), Only(os, false), required);
    OnlyOfUniform(Only(os, true), true);
    OnlyOfUniform(Only(os, false), false);
  }

  /** The arrangement of one level: a permutation, required options first, and within each of the
      two groups the order of the input. */
  lemma RequiredFirstIsStable(os: seq<CommandOption>)
    ensures multiset(RequiredFirst(os)) == multiset(os) && |RequiredFirst(os)| == |os|
    ensures RequiredBeforeOptional(RequiredFirst(os))
    ensures forall required :: Only(RequiredFirst(os), required) == Only(os, required)
  {
    RequiredFirstIsPermutation(os);
    RequiredComeFirst(os);
    OnlyOfArranged(os, true);
    OnlyOfArranged(os, false);
  }

  /** No other arrangement has these properties. */
  lemma {:induction false} StableArrangementIsUnique(os: seq<CommandOption>)
    requires RequiredBeforeOptional(os)
    ensures RequiredFirst(os) == os
  {
    if os != [] {
      var front, last := os[..|os| - 1], os[|os| - 1];
      StableArrangementIsUnique(front);
      assert os == front + [last];
      if last.required {
        forall o | o in front ensures o.required {
          var i :| 0 <= i < |front| && front[i] == o;
          assert os[i].required;
        }
        OnlyOfUniform(front, true);
      }
    }
  }

  /** So a sequence with the groups of `os` in the right order is `RequiredFirst(os)`. */
  lemma OnlyStableArrangement(os: seq<CommandOption>, q: seq<CommandOption>)
    requires RequiredBeforeOptional(q)
    requires forall required :: Only(q, required) == Only(os, required)
    ensures q == RequiredFirst(os)
  {
    StableArrangementIsUnique(q);
    assert Only(q, true) == Only(os, true) && Only(q, false) == Only(os, false);
  }

  lemma {:induction false} AllReorderedAt(os: seq<CommandOption>, k: nat)
    requires k < |os|
    ensures AllReordered(os)[k] == Reordered(os[k])
  {
    if k < |os| - 1 {
      AllReorderedAt(os[..|os| - 1], k);
    }
  }

  /** Every level of the emitted tree has its required options first. */
  lemma {:induction false} EmittedTreeIsOrdered(o: CommandOption)
    ensures OrderedThroughout(Reordered(o))
    decreases o
  {
    var os := AllReordered(o.options);
    RequiredFirstIsPermutation(os);
    RequiredComeFirst(os);
    var r := RequiredFirst(os);
    forall k | 0 <= k < |r| ensures OrderedThroughout(r[k]) {
      assert r[k] in multiset(os);
      var i :| 0 <= i < |os| && os[i] == r[k];
      AllReorderedAt(o.options, i);
      EmittedTreeIsOrdered(o.options[i]);
    }
  }

  lemma {:induction false} OrderedTreeIsKept(o: CommandOption)
    requires OrderedThroughout(o)
    ensures Reordered(o) == o
    decreases o
  {
    var r := AllReordered(o.options);
    forall k | 0 <= k < |r| ensures r[k] == o.options[k] {
      AllReorderedAt(o.options, k);
      OrderedTreeIsKept(o.options[k]);
    }
    assert r == o.options;
    StableArrangementIsUnique(o.options);
  }

  /** Reordering a tree that has been reordered changes nothing, and it changes nothing exactly in
      trees that are in order. */
  lemma ReorderingTwice(o: CommandOption)
    ensures Reordered(Reordered(o)) == Reordered(o)
    ensures Reordered(o) == o <==> OrderedThroughout(o)
  {
    EmittedTreeIsOrdered(o);
    OrderedTreeIsKept(Reordered(o));
    if OrderedThroughout(o) {
      OrderedTreeIsKept(o);
    }
  }

  // ---------- The order in the JSON itself ----------

  predicate IsRequired(j: Json) {
    j.Object? && Get(j.fields, "required") == Some(Bool(true))
  }

  /** In a list no item with `required` true follows one without. */
  ghost predicate RequiredItemsFirst(items: seq<Json>) {
    forall a, b :: 0 <= a < b < |items| && IsRequired(items[b]) ==> IsRequired(items[a])
  }

  /** So it is in the list of options of an object, and in those of all its options. */
  ghost predicate ListsOrdered(j: Json)
    decreases j
  {
    j.Object? ==>
      var i := IndexOf(j.fields, "options");
      i < |j.fields| && j.fields[i].value.List? ==>
        var items := j.fields[i].value.items;
        RequiredItemsFirst(items) && forall k :: 0 <= k < |items| ==> ListsOrdered(items[k])
  }

  lemma {:induction false} AllRenderedAt(os: seq<CommandOption>, k: nat)
    requires k < |os|
    ensures AllRendered(os)[k] == Rendered(os[k])
  {
    if k < |os| - 1 {
      AllRenderedAt(os[..|os| - 1], k);
    }
  }

  lemma {:induction false} OrderedIsEmittedOrdered(os: seq<CommandOption>)
    requires RequiredBeforeOptional(os) && forall k :: 0 <= k < |os| ==> OrderedThroughout(os[k])
    ensures RequiredItemsFirst(AllRendered(os))
    ensures forall k :: 0 <= k < |os| ==> ListsOrdered(AllRendered(os)[k])
    decreases os
  {
    forall k | 0 <= k < |os|
      ensures ListsOrdered(AllRendered(os)[k]) && (IsRequired(AllRendered(os)[k]) <==> os[k].required)
    {
      AllRenderedAt(os, k);
      OptionFields(os[k]);
      OrderedIsEmittedOrdered(os[k].options);
    }
  }

  /** The emitted JSON of any option has, at every level, no required option behind an optional one, and
      reads as the reordered tree. */
  lemma EmittedOptionIsOrdered(o: CommandOption)
    ensures ListsOrdered(Rendered(Reordered(o))) && ReadOption(Rendered(Reordered(o))) == Viewed(Reordered(o))
  {
    EmittedTreeIsOrdered(o);
    OptionFields(Reordered(o));
    OrderedIsEmittedOrdered(Reordered(o).options);
    ReadBack(Reordered(o));
  }

  lemma ReorderedLevelIsOrdered(options: seq<CommandOption>)
    ensures var os := RequiredFirst(AllReordered(options));
      RequiredBeforeOptional(os) && forall k :: 0 <= k < |os| ==> OrderedThroughout(os[k])
  {
    var r := AllReordered(options);
    var os := RequiredFirst(r);
    RequiredFirstIsPermutation(r);
    RequiredComeFirst(r);
    forall k | 0 <= k < |os| ensures OrderedThroughout(os[k]) {
      assert os[k] in multiset(r);
      var i :| 0 <= i < |r| && r[i] == os[k];
      AllReorderedAt(options, i);
      EmittedTreeIsOrdered(options[i]);
    }
  }

  /** So has that of any command. */
  lemma EmittedCommandIsOrdered(c: Command)
    requires c.name.Some?
    ensures var os := RequiredFirst(AllReordered(c.options));
      var fields := CommandRendered(c.(options := os));
      && ListsOrdered(Object(fields))
      && (match Get(fields, "options")
          case Some(List(items)) => ReadOptions(items) == AllViewed(os)
          case Some(_) => false
          case None => os == [])
  {
    var os := RequiredFirst(AllReordered(c.options));
    ReorderedLevelIsOrdered(c.options);
    CommandFields(c.(options := os));
    OrderedIsEmittedOrdered(os);
    ReadAllBack(os);
  }

  // ---------- The code ----------

  function AsWritten(os: seq<CommandOption>): (r: seq<Option<CommandOption>>)
    ensures |r| == |os| && forall i :: 0 <= i < |os| ==> r[i] == Some(os[i])
  {
    seq(|os|, i requires 0 <= i < |os| => Some(os[i]))
  }

  lemma {:induction false} OnlyIsMonotone(os: seq<CommandOption>, i: nat, required: bool)
    requires i <= |os|
    ensures |Only(os[..i], required)| <= |Only(os, required)|
  {
    assert os == os[..i] + os[i..];
    OnlyOfConcat(os[..i], os[i..], required);
  }

  lemma OnlyByOne(os: seq<CommandOption>, i: nat, required: bool)
    requires i < |os|
    ensures Only(os[..i + 1], required) == Only(os[..i], required) + if os[i].required == required then [os[i]] else []
    ensures |Only(os[..i + 1], required)| <= |Only(os, required)|
  {
    assert os[..i + 1][..i] == os[..i];
    OnlyIsMonotone(os, i + 1, required);
  }

  /** Writes the next slot. */
  method Place(ordered: array<Option<CommandOption>>, cur: nat, o: CommandOption, ghost done: seq<CommandOption>,
               ghost first: seq<Option<CommandOption>>)
    requires cur < ordered.Length && ordered[..cur] == first + AsWritten(done)
    modifies ordered
    ensures ordered[..cur + 1] == first + AsWritten(done + [o])
    ensures forall k :: cur < k < ordered.Length ==> ordered[k] == old(ordered[k])
  {
    ordered[cur] := Some(o);
    assert ordered[..cur + 1] == ordered[..cur] + [Some(o)];
    WrittenOfConcat(done, [o]);
  }

  /** One round of a pass. */
  method Consider(o: CommandOption, required: bool, ordered: array<Option<CommandOption>>, cur: nat,
                  ghost all: seq<CommandOption>, ghost i: nat, ghost first: seq<Option<CommandOption>>)
    returns (next: nat)
    requires i < |all| && o == all[i] && cur == |first| + |Only(all[..i], required)|
    requires |first| + |Only(all, required)| <= ordered.Length && cur <= ordered.Length
    requires ordered[..cur] == first + AsWritten(Only(all[..i], required))
    requires forall k :: cur <= k < ordered.Length ==> ordered[k] == None
    modifies ordered
    ensures next == |first| + |Only(all[..i + 1], required)| <= ordered.Length
    ensures ordered[..next] == first + AsWritten(Only(all[..i + 1], required))
    ensures forall k :: next <= k < ordered.Length ==> ordered[k] == None
  {
    OnlyByOne(all, i, required);
    next := cur;
    if o.required == required {
      assert ordered[cur] == None;
      Place(ordered, cur, o, Only(all[..i], required), first);
      next := cur + 1;
    }
  }

  /** One pass over the options: those with the flag go to the next free slots, each of which is
      still unwritten. */
  method Pass(options: array<CommandOption>, required: bool, ordered: array<Option<CommandOption>>, start: nat)
    returns (cur: nat)
    requires start + |Only(options[..], required)| <= ordered.Length
    requires forall k :: start <= k < ordered.Length ==> ordered[k] == None
    modifies ordered
    ensures cur == start + |Only(options[..], required)|
    ensures ordered[..cur] == old(ordered[..start]) + AsWritten(Only(options[..], required))
    ensures forall k :: cur <= k < ordered.Length ==> ordered[k] == None
  {
    cur := start;
    ghost var all := options[..];
    for i := 0 to options.Length
      invariant options[..] == all && cur == start + |Only(all[..i], required)| <= ordered.Length
      invariant ordered[..cur] == old(ordered[..start]) + AsWritten(Only(all[..i], required))
      invariant forall k :: cur <= k < ordered.Length ==> ordered[k] == None
    {
      cur := Consider(options[i], required, ordered, cur, all, i, old(ordered[..start]));
    }
    assert all[..options.Length] == all;
  }

  lemma WrittenOfConcat(a: seq<CommandOption>, b: seq<CommandOption>)
    ensures AsWritten(a + b) == AsWritten(a) + AsWritten(b)
  {
  }

  /** Fills the array of ordered options in two passes; no slot is left unwritten. */
  method Arrange(options: array<CommandOption>) returns (ordered: array<Option<CommandOption>>)
    ensures fresh(ordered) && ordered[..] == AsWritten(RequiredFirst(options[..]))
  {
    ghost var all := options[..];
    RequiredFirstIsPermutation(all);
    ordered := new Option<CommandOption>[options.Length](_ => None);
    var cur := Pass(options, true, ordered, 0);
    assert ordered[..cur] == AsWritten(Only(all, true));
    cur := Pass(options, false, ordered, cur);
    WrittenOfConcat(Only(all, true), Only(all, false));
    assert cur == ordered.Length;
  }

  lemma RenderedByOne(os: seq<CommandOption>, i: nat)
    requires i < |os|
    ensures AllRendered(AllReordered(os[..i + 1]))
            == AllRendered(AllReordered(os[..i])) + [Rendered(Reordered(os[i]))]
  {
    assert os[..i + 1][..i] == os[..i];
    var r := AllReordered(os[..i + 1]);
    assert r[..|r| - 1] == AllReordered(os[..i]);
  }

  lemma {:induction false} OnlyOfReordered(os: seq<CommandOption>, required: bool)
    ensures Only(AllReordered(os), required) == AllReordered(Only(os, required))
  {
    if os != [] {
      var front, last := os[..|os| - 1], os[|os| - 1];
      var r := AllReordered(os);
      OnlyOfReordered(front, required);
      assert r[..|r| - 1] == AllReordered(front) && r[|r| - 1] == Reordered(last);
      if last.required == required {
        var o := Only(front, required) + [last];
        assert o[..|o| - 1] == Only(front, required) && Only(os, required) == o;
      } else {
        assert Only(os, required) == Only(front, required) && Only(r, required) == Only(AllReordered(front), required);
      }
    }
  }

  lemma {:induction false} ReorderedOfConcat(a: seq<CommandOption>, b: seq<CommandOption>)
    ensures AllReordered(a + b) == AllReordered(a) + AllReordered(b)
  {
    if b == [] {
      assert a + b == a;
    } else {
      assert (a + b)[..|a + b| - 1] == a + b[..|b| - 1];
      ReorderedOfConcat(a, b[..|b| - 1]);
    }
  }

  /** Reordering below a level does not disturb the arrangement of the level. */
  lemma ArrangingCommutes(os: seq<CommandOption>)
    ensures RequiredFirst(AllReordered(os)) == AllReordered(RequiredFirst(os))
  {
    OnlyOfReordered(os, true);
    OnlyOfReordered(os, false);
    ReorderedOfConcat(Only(os, true), Only(os, false));
  }

  lemma MembersAreSmaller(os: seq<CommandOption>, k: nat)
    requires k < |RequiredFirst(os)|
    ensures RequiredFirst(os)[k] in os
  {
    RequiredFirstIsPermutation(os);
    assert RequiredFirst(os)[k] in multiset(RequiredFirst(os));
  }

  /** Renders the arranged options in turn. */
  method RenderAll(ordered: array<Option<CommandOption>>, ghost r: seq<CommandOption>, ghost os: seq<CommandOption>)
    returns (items: seq<Json>)
    requires ordered[..] == AsWritten(r) && forall k :: 0 <= k < |r| ==> r[k] in os
    ensures items == AllRendered(AllReordered(r))
    decreases os, 0
  {
    items := [];
    for i := 0 to ordered.Length
      invariant ordered[..] == AsWritten(r) && items == AllRendered(AllReordered(r[..i]))
    {
      RenderedByOne(r, i);
      assert ordered[..][i] == Some(r[i]);
      var item := AddOption(ordered[i].value);
      items := items + [item];
    }
    assert r[..ordered.Length] == r;
  }

  /** The options of one level: nothing if there are none, else the arranged list. */
  method AddOptions(options: array<CommandOption>, ghost os: seq<CommandOption>) returns (list: Option<Json>)
    requires options[..] == os
    ensures list == ListOf(AllRendered(RequiredFirst(AllReordered(os))))
    decreases os, 1
  {
    ArrangingCommutes(os);
    RequiredFirstIsPermutation(os);
    var ordered := Arrange(options);
    forall k | 0 <= k < |RequiredFirst(os)| ensures RequiredFirst(os)[k] in os {
      MembersAreSmaller(os, k);
    }
    var items := RenderAll(ordered, RequiredFirst(os), os);
    list := if options.Length > 0 then Some(List(items)) else None;
  }

  lemma OneMoreField(keys: seq<string>, values: seq<Option<Json>>, i: nat)
    requires |keys| == |values| && i < |keys|
    ensures Emit(keys[..i + 1], values[..i + 1])
            == Emit(keys[..i], values[..i]) + if values[i].Some? then [Field(keys[i], values[i].value)] else []
  {
    assert keys[..i + 1][..i] == keys[..i] && values[..i + 1][..i] == values[..i];
  }

  /** Adds a field if there is a value for it; it is number `i` of those that are added in turn. */
  method Add(fields: seq<Field>, name: string, value: Option<Json>, ghost keys: seq<string>,
             ghost values: seq<Option<Json>>, ghost i: nat) returns (r: seq<Field>)
    requires |keys| == |values| && i < |keys| && keys[i] == name && values[i] == value
    requires fields == Emit(keys[..i], values[..i])
    ensures r == Emit(keys[..i + 1], values[..i + 1])
  {
    OneMoreField(keys, values, i);
    r := fields;
    if value.Some? {
      r := r + [Field(name, value.value)];
    }
  }

  /** `add_choice`. */
  method AddChoice(c: CommandChoice, kind: int) returns (json: Json)
    ensures json == RenderedChoice(c, kind)
  {
    ghost var values := [Some(Text(c.name)), c.locales, When(Ranged(kind), Number(c.number))];
    var number := None;
    if kind == INTEGER_TYPE || kind == NUMBER_TYPE {
      number := Some(Number(c.number));
    }
    var fields := Add([], "name", Some(Text(c.name)), CHOICE_KEYS, values, 0);
    fields := Add(fields, "name_localizations", c.locales, CHOICE_KEYS, values, 1);
    fields := Add(fields, "value", number, CHOICE_KEYS, values, 2);
    assert CHOICE_KEYS[..3] == CHOICE_KEYS && values[..3] == values;
    json := Object(fields);
  }

  method AddChoices(cs: seq<CommandChoice>, kind: int) returns (list: Option<Json>)
    ensures list == ListOf(RenderedChoices(cs, kind))
  {
    var items := [];
    for i := 0 to |cs|
      invariant items == RenderedChoices(cs[..i], kind)
    {
      var item := AddChoice(cs[i], kind);
      items := items + [item];
    }
    assert cs[..|cs|] == cs;
    list := if |cs| > 0 then Some(List(items)) else None;
  }

  method AddChannelTypes(types: seq<int>) returns (list: Option<Json>)
    ensures list == ListOf(Numbers(types))
  {
    var items := [];
    for i := 0 to |types|
      invariant items == Numbers(types[..i])
    {
      items := items + [Number(types[i] as real)];
    }
    assert types[..|types|] == types;
    list := if |types| > 0 then Some(List(items)) else None;
  }

  /** The fields of an option up to its choices. */
  method AddHeader(o: CommandOption, choices: Option<Json>, ghost values: seq<Option<Json>>)
    returns (fields: seq<Field>)
    requires |values| == |OPTION_KEYS| && values[0] == Some(Text(o.name)) && values[1] == Some(Text(o.description))
    requires values[2] == o.nameLocales && values[3] == o.descriptionLocales
    requires values[4] == Some(Bool(o.required)) && values[5] == choices
    ensures fields == Emit(OPTION_KEYS[..6], values[..6])
  {
    fields := Add([], "name", Some(Text(o.name)), OPTION_KEYS, values, 0);
    fields := Add(fields, "description", Some(Text(o.description)), OPTION_KEYS, values, 1);
    fields := Add(fields, "name_localizations", o.nameLocales, OPTION_KEYS, values, 2);
    fields := Add(fields, "description_localizations", o.descriptionLocales, OPTION_KEYS, values, 3);
    fields := Add(fields, "required", Some(Bool(o.required)), OPTION_KEYS, values, 4);
    fields := Add(fields, "choices", choices, OPTION_KEYS, values, 5);
  }

  /** And those behind its options. */
  method AddFooter(o: CommandOption, header: seq<Field>, types: Option<Json>, ghost values: seq<Option<Json>>)
    returns (fields: seq<Field>)
    requires |values| == |OPTION_KEYS| && header == Emit(OPTION_KEYS[..7], values[..7])
    requires values[7] == types && values[8] == When(Ranged(o.kind), Number(o.minValue))
    requires values[9] == When(Ranged(o.kind), Number(o.maxValue))
    requires values[10] == When(o.kind == STRING_TYPE, Number(o.minLength as real))
    requires values[11] == When(o.kind == STRING_TYPE, Number(o.maxLength as real))
    requires values[12] == Some(Bool(o.autocomplete))
    ensures fields == Emit(OPTION_KEYS, values)
  {
    var minValue, maxValue, minLength, maxLength := None, None, None, None;
    if o.kind == INTEGER_TYPE || o.kind == NUMBER_TYPE {
      minValue, maxValue := Some(Number(o.minValue)), Some(Number(o.maxValue));
    }
    if o.kind == STRING_TYPE {
      minLength, maxLength := Some(Number(o.minLength as real)), Some(Number(o.maxLength as real));
    }
    fields := Add(header, "channel_types", types, OPTION_KEYS, values, 7);
    fields := Add(fields, "min_value", minValue, OPTION_KEYS, values, 8);
    fields := Add(fields, "max_value", maxValue, OPTION_KEYS, values, 9);
    fields := Add(fields, "min_length", minLength, OPTION_KEYS, values, 10);
    fields := Add(fields, "max_length", maxLength, OPTION_KEYS, values, 11);
    fields := Add(fields, "autocomplete", Some(Bool(o.autocomplete)), OPTION_KEYS, values, 12);
    assert OPTION_KEYS[..13] == OPTION_KEYS && values[..13] == values;
  }

  /** The fields of an option, its own options given as JSON. */
  method AddOptionFields(o: CommandOption, list: Option<Json>, ghost values: seq<Option<Json>>)
    returns (fields: seq<Field>)
    requires values == OptionValues(o)[6 := list]
    ensures fields == Emit(OPTION_KEYS, values)
  {
    var choices := AddChoices(o.choices, o.kind);
    fields := AddHeader(o, choices, values);
    fields := Add(fields, "options", list, OPTION_KEYS, values, 6);
    var types := AddChannelTypes(o.channelTypes);
    fields := AddFooter(o, fields, types, values);
  }

  lemma OnlyOptionsChange(o: CommandOption)
    ensures OptionValues(Reordered(o)) == OptionValues(o)[6 := ListOf(AllRendered(Reordered(o).options))]
  {
  }

  /** `add_option`: the JSON reads, field by field, as the rearranged tree, and every list of options in
      it has the required ones first. */
  method AddOption(o: CommandOption) returns (json: Json)
    ensures json == Rendered(Reordered(o))
    ensures ListsOrdered(json) && ReadOption(json) == Viewed(Reordered(o))
    decreases o
  {
    var options := new CommandOption[|o.options|](i requires 0 <= i < |o.options| => o.options[i]);
    assert options[..] == o.options;
    var list := AddOptions(options, o.options);
    OnlyOptionsChange(o);
    var fields := AddOptionFields(o, list, OptionValues(Reordered(o)));
    json := Object(fields);
    EmittedOptionIsOrdered(o);
  }

  /** The fields of a command up to its options. */
  method AddCommandHeader(c: Command, ghost values: seq<Option<Json>>) returns (fields: seq<Field>)
    requires c.name.Some? && |values| == |COMMAND_KEYS| && values[0] == Some(Text(c.name.value))
    requires values[1] == When(c.kind != 0, Number(c.kind as real)) && values[2] == Some(Text(c.description))
    requires values[3] == c.nameLocales && values[4] == c.descriptionLocales
    ensures fields == Emit(COMMAND_KEYS[..5], values[..5])
  {
    var kind := if c.kind != 0 then Some(Number(c.kind as real)) else None;
    fields := Add([], "name", Some(Text(c.name.value)), COMMAND_KEYS, values, 0);
    fields := Add(fields, "type", kind, COMMAND_KEYS, values, 1);
    fields := Add(fields, "description", Some(Text(c.description)), COMMAND_KEYS, values, 2);
    fields := Add(fields, "name_localizations", c.nameLocales, COMMAND_KEYS, values, 3);
    fields := Add(fields, "description_localizations", c.descriptionLocales, COMMAND_KEYS, values, 4);
  }

  /** And those behind its options. */
  method AddCommandFooter(c: Command, header: seq<Field>, ghost values: seq<Option<Json>>) returns (fields: seq<Field>)
    requires |values| == |COMMAND_KEYS| && header == Emit(COMMAND_KEYS[..6], values[..6])
    requires values[6] == (if c.permissions.Some? then Some(Text(c.permissions.value)) else None)
    requires values[7] == Some(Bool(c.dmPermission))
    requires values[8] == When(c.version != 0, Text(Reference.Decimal(c.version)))
    ensures fields == Emit(COMMAND_KEYS, values)
  {
    var permissions := if c.permissions.Some? then Some(Text(c.permissions.value)) else None;
    var version := if c.version != 0 then Some(Text(Reference.Decimal(c.version))) else None;
    fields := Add(header, "default_member_permissions", permissions, COMMAND_KEYS, values, 6);
    fields := Add(fields, "dm_permission", Some(Bool(c.dmPermission)), COMMAND_KEYS, values, 7);
    fields := Add(fields, "version", version, COMMAND_KEYS, values, 8);
    assert COMMAND_KEYS[..9] == COMMAND_KEYS && values[..9] == values;
  }

  /** The fields of a command, its options given as JSON. */
  method AddCommandFields(c: Command, list: Option<Json>, ghost values: seq<Option<Json>>) returns (fields: seq<Field>)
    requires c.name.Some? && values == CommandValues(c)[5 := list]
    ensures fields == Emit(COMMAND_KEYS, values)
  {
    fields := AddCommandHeader(c, values);
    fields := Add(fields, "options", list, COMMAND_KEYS, values, 5);
    fields := AddCommandFooter(c, fields, values);
  }

  /** `format_json`: a command without a name is refused and nothing is written; else every list of
      options written has the required ones first, and the options read as the rearranged trees. */
  method FormatJson(c: Command) returns (status: int, fields: seq<Field>)
    ensures c.name.None? ==> status == 1 && fields == []
    ensures c.name.Some? ==> status == 0 && ListsOrdered(Object(fields))
    ensures c.name.Some? ==> fields == CommandRendered(c.(options := RequiredFirst(AllReordered(c.options))))
    ensures c.name.Some? && c.options != [] ==>
      match Get(fields, "options")
      case Some(List(items)) => ReadOptions(items) == AllViewed(RequiredFirst(AllReordered(c.options)))
      case _ => false
  {
    if c.name.None? {
      return 1, [];
    }
    ghost var os := RequiredFirst(AllReordered(c.options));
    var options := new CommandOption[|c.options|](i requires 0 <= i < |c.options| => c.options[i]);
    assert options[..] == c.options;
    var list := AddOptions(options, c.options);
    fields := AddCommandFields(c, list, CommandValues(c.(options := os)));
    status := 0;
    RequiredFirstIsPermutation(AllReordered(c.options));
    EmittedCommandIsOrdered(c);
  }
}
