/**
 * The values the parameter changes editor works on, and the pure logic of the
 * editor: default entries, the human-readable renderers, the validation rules
 * and the registration of new parameter names in the parameter specs.
 */
module ParamChanges {
  import opened JsBuiltins

  /** The generator-specific payload of a parameter change (`customization_args`). */
  datatype CustomizationArgs =
    | Copier(parseWithJinja: bool, value: string)
    | RandomSelector(listOfValues: seq<string>)
    | Missing  // `undefined`: the defaults hold nothing for an unknown generator id

  /** One entry of the list being edited. */
  datatype ParamChange = ParamChange(name: string, generatorId: string, customizationArgs: CustomizationArgs)

  /** A declared parameter's type. */
  datatype ParamSpec = ParamSpec(objType: string)

  /** One option of the parameter name dropdown. */
  datatype NameChoice = NameChoice(id: string, text: string)

  /** What checking a list of entries does: accept, reject with a message, or throw. */
  datatype Verdict = Accept | Reject(message: string) | TypeError

  const COPIER: string := "Copier"
  const RANDOM_SELECTOR: string := "RandomSelector"
  const DEFAULT_PARAM_SPEC: ParamSpec := ParamSpec("UnicodeString")
  const FALLBACK_PARAM_NAME: string := "x"

  const EMPTY_NAME_MESSAGE: string := "Please pick a non-empty parameter name."
  const NON_ALPHABETIC_MESSAGE: string := "Parameter names should use only alphabetic characters."
  const NO_GENERATOR_MESSAGE: string := "Each parameter should have a generator id."
  const NO_VALUES_MESSAGE: string := "Each parameter should have at least one possible value."
  const INVALID_CHANGES_WARNING: string := "Invalid parameter changes."

  function ReservedNameMessage(name: string): string
  {
    "The parameter name '" + name + "' is reserved."
  }

  function DeleteOutOfRangeWarning(index: int): string
  {
    "Cannot delete parameter change at position " + IntToString(index) + ": index out of range"
  }

  /** The reserved-name message names the offending parameter unambiguously. */
  lemma ReservedNameMessageInjective(a: string, b: string)
    requires ReservedNameMessage(a) == ReservedNameMessage(b)
    ensures a == b
  {
    var ma, mb := ReservedNameMessage(a), ReservedNameMessage(b);
    assert |a| == |b|;
    assert a == ma[20..|ma| - 14] && b == mb[20..|mb| - 14];
  }

  /** The out-of-range warning names the requested position unambiguously. */
  lemma DeleteOutOfRangeWarningInjective(i: int, j: int)
    requires DeleteOutOfRangeWarning(i) == DeleteOutOfRangeWarning(j)
    ensures i == j
  {
    var wi, wj := DeleteOutOfRangeWarning(i), DeleteOutOfRangeWarning(j);
    assert |IntToString(i)| == |IntToString(j)|;
    assert IntToString(i) == wi[43..|wi| - 20] && IntToString(j) == wj[43..|wj| - 20];
    IntToStringInjective(i, j);
  }

  // ---------------------------------------------------------------------------
  // Defaults
  // ---------------------------------------------------------------------------

  /** The generator ids the editor knows (the own keys of its preamble table). */
  predicate IsKnownGenerator(generatorId: string)
  {
    generatorId == COPIER || generatorId == RANDOM_SELECTOR
  }

  /**
   * A fresh copy of the default arguments for a generator id: each known
   * generator gets arguments of its own shape that pass validation, any
   * other id gets nothing.
   */
  function DefaultCustomizationArgs(generatorId: string): (args: CustomizationArgs)
    ensures args.Copier? <==> generatorId == COPIER
    ensures args.RandomSelector? <==> generatorId == RANDOM_SELECTOR
    ensures args.RandomSelector? ==> |args.listOfValues| == 1
    ensures args.Missing? <==> !IsKnownGenerator(generatorId)
  {
    if generatorId == COPIER then Copier(true, "5")
    else if generatorId == RANDOM_SELECTOR then RandomSelector(["sample value"])
    else Missing
  }

  /** The default arguments are those of the table: Copier copies "5" through Jinja, RandomSelector picks 'sample value'. */
  lemma DefaultArgumentValues()
    ensures DefaultCustomizationArgs(COPIER) == Copier(true, "5")
    ensures DefaultCustomizationArgs(RANDOM_SELECTOR) == RandomSelector(["sample value"])
    ensures DefaultParameterChange("x") == ParamChange("x", "Copier", Copier(true, "5"))
  {
  }

  /** A new Copier entry for `name` with the default Copier arguments. */
  function DefaultParameterChange(name: string): (pc: ParamChange)
    ensures pc.name == name && pc.generatorId == COPIER
    ensures pc.customizationArgs == DefaultCustomizationArgs(pc.generatorId)
  {
    ParamChange(name, COPIER, DefaultCustomizationArgs(COPIER))
  }

  /** `onChangeGeneratorType`: the entry with the default arguments of its (new) generator id. */
  function WithDefaultArgs(pc: ParamChange): (r: ParamChange)
    ensures r.name == pc.name && r.generatorId == pc.generatorId
    ensures r.customizationArgs == DefaultCustomizationArgs(pc.generatorId)
  {
    pc.(customizationArgs := DefaultCustomizationArgs(pc.generatorId))
  }

  /** The name `addParamChange` gives a new entry: the first dropdown choice, or "x". */
  function NewParamName(choices: seq<NameChoice>): string
  {
    if |choices| > 0 then choices[0].id else FALLBACK_PARAM_NAME
  }

  /** The ids of the choices, in order. */
  function Ids(choices: seq<NameChoice>): (ids: seq<string>)
    ensures |ids| == |choices|
    ensures forall i :: 0 <= i < |ids| ==> ids[i] == choices[i].id
  {
    seq(|choices|, i requires 0 <= i < |choices| => choices[i].id)
  }

  /**
   * `generateParamNameChoices`: one choice per spec key, labelled by the key
   * itself, in sort order.
   */
  function GenerateParamNameChoices(specs: map<string, ParamSpec>): (r: seq<NameChoice>)
    ensures forall i :: 0 <= i < |r| ==> r[i].id == r[i].text
    ensures |r| == |specs|
    ensures forall name :: name in Ids(r) <==> name in specs
    ensures StrictlySorted(Ids(r))
  {
    var keys := SortedKeys(specs.Keys);
    var r := seq(|keys|, i requires 0 <= i < |keys| => NameChoice(keys[i], keys[i]));
    assert Ids(r) == keys;
    r
  }

  /** The first choice offered is the spec key that sorts first. */
  lemma FirstChoiceIsLeastKey(specs: map<string, ParamSpec>)
    requires |specs| > 0
    ensures GenerateParamNameChoices(specs)[0].id == Least(specs.Keys)
  {
    var ids := Ids(GenerateParamNameChoices(specs));
    forall name | name in specs
      ensures LexLe(ids[0], name)
    {
      var i :| 0 <= i < |ids| && ids[i] == name;
      if i > 0 {
        assert LexLt(ids[0], ids[i]);
      } else {
        LexLeReflexive(name);
      }
    }
    assert IsLeast(ids[0], specs.Keys);
    LeastUnique(specs.Keys);
  }

  // ---------------------------------------------------------------------------
  // Human-readable rendering
  // ---------------------------------------------------------------------------

  /** The Copier renderer: the preamble "to " followed by the copied value. */
  function RenderCopier(value: string): (r: string)
    ensures |r| == |value| + 3 && r[..3] == "to " && r[3..] == value
  {
    "to " + value
  }

  /** The values separated by ", ", each value appended after the ones before it, as the renderer's loop does. */
  function Join(values: seq<string>): string
  {
    if |values| == 0 then ""
    else if |values| == 1 then values[0]
    else Join(values[..|values| - 1]) + ", " + values[|values| - 1]
  }

  /** The same text described from the front: the first value, then ", " and the join of the rest. */
  lemma {:induction false} JoinFirst(values: seq<string>)
    requires |values| > 0
    ensures Join(values) == values[0] + (if |values| == 1 then "" else ", " + Join(values[1..]))
    decreases |values|
  {
    if |values| > 2 {
      var n := |values|;
      JoinFirst(values[..n - 1]);
      assert values[..n - 1][1..] == values[1..][..n - 2];
      assert values[..n - 1][0] == values[0];
    } else if |values| == 2 {
      assert values[..1] == [values[0]];
      assert values[1..] == [values[1]];
    }
  }

  /** The RandomSelector renderer (a loop over the values). */
  method RenderRandomSelector(values: seq<string>) returns (result: string)
    ensures result == "to one of [" + Join(values) + "] at random"
  {
    result := "to one of [";
    var i := 0;
    while i < |values|
      invariant 0 <= i <= |values|
      invariant result == "to one of [" + Join(values[..i])
    {
      if i != 0 {
        result := result + ", ";
      }
      result := result + values[i];
      assert values[..i + 1][..i] == values[..i];
      i := i + 1;
    }
    assert values[..i] == values;
    result := result + "] at random";
  }

  // ---------------------------------------------------------------------------
  // Validation
  // ---------------------------------------------------------------------------

  predicate IsAsciiLetter(c: char)
  {
    'A' <= c <= 'Z' || 'a' <= c <= 'z'
  }

  /** The test `/^[A-Za-z]+$/` performs. */
  predicate IsAlphabetic(name: string)
  {
    |name| > 0 && forall i :: 0 <= i < |name| ==> IsAsciiLetter(name[i])
  }

  /** The conditions an entry must meet, stated all at once. */
  predicate EntryOk(pc: ParamChange, reserved: seq<string>)
  {
    && pc.name != ""
    && pc.name !in reserved
    && IsAlphabetic(pc.name)
    && IsKnownGenerator(pc.generatorId)
    && (pc.generatorId == RANDOM_SELECTOR ==>
          pc.customizationArgs.RandomSelector? && |pc.customizationArgs.listOfValues| > 0)
  }

  /**
   * The checks made on one entry, in the editor's order: empty name, reserved
   * name, non-alphabetic name, unknown generator, empty value list. Reading
   * `list_of_values` of arguments that have none throws.
   */
  function EntryVerdict(pc: ParamChange, reserved: seq<string>): (v: Verdict)
    ensures v == Accept <==> EntryOk(pc, reserved)
    ensures v.TypeError? ==>
      EntryOk(pc.(customizationArgs := RandomSelector(["sample value"])), reserved)
  {
    if pc.name == "" then Reject(EMPTY_NAME_MESSAGE)
    else if pc.name in reserved then Reject(ReservedNameMessage(pc.name))
    else if !IsAlphabetic(pc.name) then Reject(NON_ALPHABETIC_MESSAGE)
    else if !IsKnownGenerator(pc.generatorId) then Reject(NO_GENERATOR_MESSAGE)
    else if pc.generatorId == RANDOM_SELECTOR then
      match pc.customizationArgs
      case RandomSelector(values) => if |values| == 0 then Reject(NO_VALUES_MESSAGE) else Accept
      case _ => TypeError
    else Accept
  }

  /** The verdict on a whole list: entries in order, the first that does not pass decides. */
  function ValidateAll(changes: seq<ParamChange>, reserved: seq<string>): Verdict
  {
    if changes == [] then Accept
    else
      var first := EntryVerdict(changes[0], reserved);
      if first == Accept then ValidateAll(changes[1..], reserved) else first
  }

  /**
   * A list is accepted exactly when every entry is OK; otherwise the verdict
   * is that of one of its entries.
   */
  lemma {:induction false} ValidateAllAcceptsExactly(changes: seq<ParamChange>, reserved: seq<string>)
    ensures ValidateAll(changes, reserved) == Accept <==>
      forall i :: 0 <= i < |changes| ==> EntryOk(changes[i], reserved)
    ensures ValidateAll(changes, reserved) != Accept ==>
      exists i :: 0 <= i < |changes| && ValidateAll(changes, reserved) == EntryVerdict(changes[i], reserved)
  {
    if changes != [] {
      ValidateAllAcceptsExactly(changes[1..], reserved);
      assert forall i :: 1 <= i < |changes| ==> changes[i] == changes[1..][i - 1];
      if EntryVerdict(changes[0], reserved) == Accept && ValidateAll(changes, reserved) != Accept {
        var i :| 0 <= i < |changes[1..]| && ValidateAll(changes, reserved) == EntryVerdict(changes[1..][i], reserved);
        assert changes[1..][i] == changes[i + 1];
      }
    }
  }

  /** The verdict on a list is the verdict on its first entry that is not OK. */
  lemma {:induction false} ValidateAllReportsFirstFailure(changes: seq<ParamChange>, reserved: seq<string>, i: nat)
    requires i < |changes|
    requires forall j :: 0 <= j < i ==> EntryOk(changes[j], reserved)
    requires !EntryOk(changes[i], reserved)
    ensures ValidateAll(changes, reserved) == EntryVerdict(changes[i], reserved)
    ensures ValidateAll(changes, reserved) != Accept
  {
    if i > 0 {
      ValidateAllReportsFirstFailure(changes[1..], reserved, i - 1);
    }
  }

  /** The verdict on the tail from `i`: entry `i` either passes, handing over to the next tail, or decides. */
  lemma ValidateAllAt(changes: seq<ParamChange>, reserved: seq<string>, i: nat)
    requires i < |changes|
    ensures ValidateAll(changes[i..], reserved) ==
      var v := EntryVerdict(changes[i], reserved);
      if v == Accept then ValidateAll(changes[i + 1..], reserved) else v
  {
    assert changes[i..][0] == changes[i] && changes[i..][1..] == changes[i + 1..];
  }

  /** A RandomSelector entry with a good name is rejected exactly when its value list is empty. */
  lemma RandomSelectorNeedsValues(pc: ParamChange, reserved: seq<string>)
    requires pc.name !in reserved && IsAlphabetic(pc.name)
    requires pc.generatorId == RANDOM_SELECTOR && pc.customizationArgs.RandomSelector?
    ensures EntryVerdict(pc, reserved) == Reject(NO_VALUES_MESSAGE) <==> |pc.customizationArgs.listOfValues| == 0
    ensures EntryVerdict(pc, reserved) == Accept <==> |pc.customizationArgs.listOfValues| != 0
  {
  }

  /** An empty name is the first thing reported. */
  lemma EmptyNameRejected(pc: ParamChange, reserved: seq<string>)
    requires pc.name == ""
    ensures EntryVerdict(pc, reserved) == Reject(EMPTY_NAME_MESSAGE)
  {
  }

  /** A reserved name is reported as reserved, naming it, before its characters are looked at. */
  lemma ReservedNameRejected(pc: ParamChange, reserved: seq<string>)
    requires pc.name != "" && pc.name in reserved
    ensures EntryVerdict(pc, reserved) == Reject(ReservedNameMessage(pc.name))
  {
  }

  /** A good name with a generator id outside the table gets the generator message. */
  lemma UnknownGeneratorRejected(pc: ParamChange, reserved: seq<string>)
    requires pc.name !in reserved && IsAlphabetic(pc.name) && !IsKnownGenerator(pc.generatorId)
    ensures EntryVerdict(pc, reserved) == Reject(NO_GENERATOR_MESSAGE)
  {
  }

  /** A non-empty, non-reserved name with a character outside A-Z and a-z gets the alphabetic-only message. */
  lemma NonAlphabeticNameRejected(pc: ParamChange, reserved: seq<string>, k: nat)
    requires pc.name !in reserved && k < |pc.name| && !IsAsciiLetter(pc.name[k])
    ensures EntryVerdict(pc, reserved) == Reject(NON_ALPHABETIC_MESSAGE)
  {
  }

  /**
   * After `onChangeGeneratorType` the argument checks always pass: whether the
   * entry is accepted depends on its name and generator id alone.
   */
  lemma {:induction false} DefaultArgsPassArgumentChecks(pc: ParamChange, reserved: seq<string>)
    ensures EntryOk(WithDefaultArgs(pc), reserved) <==>
      pc.name != "" && pc.name !in reserved && IsAlphabetic(pc.name) && IsKnownGenerator(pc.generatorId)
  {
    var r := WithDefaultArgs(pc);
    if pc.generatorId == RANDOM_SELECTOR {
      assert r.customizationArgs.RandomSelector? && |r.customizationArgs.listOfValues| == 1;
    }
  }

  /** A default entry is valid exactly when its name is. */
  lemma DefaultParameterChangeValidIffName(name: string, reserved: seq<string>)
    ensures EntryOk(DefaultParameterChange(name), reserved) <==>
      name !in reserved && IsAlphabetic(name)
  {
  }

  // ---------------------------------------------------------------------------
  // Registering the names the entries use
  // ---------------------------------------------------------------------------

  function NamesOf(changes: seq<ParamChange>): set<string>
  {
    set pc | pc in changes :: pc.name
  }

  lemma NamesOfLast(changes: seq<ParamChange>)
    requires |changes| > 0
    ensures NamesOf(changes) == NamesOf(changes[..|changes| - 1]) + {changes[|changes| - 1].name}
  {
    assert changes == changes[..|changes| - 1] + [changes[|changes| - 1]];
  }

  /**
   * The specs after the editor's `forEach` over the entries: each entry's name
   * that is not yet a key is added with the default spec.
   */
  function RegisterMissingNames(specs: map<string, ParamSpec>, changes: seq<ParamChange>): (r: map<string, ParamSpec>)
    ensures r.Keys == specs.Keys + NamesOf(changes)
    ensures forall name :: name in specs ==> r[name] == specs[name]
    ensures forall name :: name in r && name !in specs ==> r[name] == DEFAULT_PARAM_SPEC
  {
    if changes == [] then specs
    else
      var n := |changes|;
      var prior := RegisterMissingNames(specs, changes[..n - 1]);
      var name := changes[n - 1].name;
      NamesOfLast(changes);
      if name in prior then prior else prior[name := DEFAULT_PARAM_SPEC]
  }

  /** Registering the same entries again changes nothing. */
  lemma RegisterMissingNamesIdempotent(specs: map<string, ParamSpec>, changes: seq<ParamChange>)
    ensures RegisterMissingNames(RegisterMissingNames(specs, changes), changes) == RegisterMissingNames(specs, changes)
  {
  }

  /** Names that `/^[A-Za-z]+$/` accepts, other than "length", are never own properties of an array. */
  lemma {:induction false} AlphabeticNameIsNotArrayProperty(length: nat, name: string)
    requires IsAlphabetic(name) && name != "length"
    ensures !ArrayHasOwnProperty(length, name)
  {
    if exists k :: 0 <= k < length && NatToString(k) == name {
      var k :| 0 <= k < length && NatToString(k) == name;
      assert IsDigit(name[0]) && IsAsciiLetter(name[0]);
    }
  }
}
