/**
 * The parameter changes editor: its scope state, the services it writes to,
 * and one method per handler of the directive's controller.
 */
module ParamChangesEditor {
  import opened JsBuiltins
  import opened ParamChanges

  /**
   * A service holding a working ("displayed") value beside its last committed
   * snapshot: the parameter changes service and the exploration parameter
   * specs service both behave so.
   */
  class Store<T> {
    var displayed: T
    var memento: T

    constructor (saved: T)
      ensures displayed == saved && memento == saved
    {
      displayed := saved;
      memento := saved;
    }

    /** Throw away the working value: it becomes the snapshot again. */
    method RestoreFromMemento()
      modifies this`displayed
      ensures displayed == memento
    {
      displayed := memento;
    }

    /** Commit the working value: it becomes the new snapshot. */
    method SaveDisplayedValue()
      modifies this`memento
      ensures memento == displayed
    {
      memento := displayed;
    }
  }

  /** The warnings shown to the author, in the order they were raised. */
  class AlertsLog {
    var warnings: seq<string>

    constructor ()
      ensures warnings == []
    {
      warnings := [];
    }

    method AddWarning(message: string)
      modifies this
      ensures warnings == old(warnings) + [message]
    {
      warnings := warnings + [message];
    }
  }

  class ParamChangesEditor {
    /** The names no parameter may take. */
    const reservedNames: seq<string>
    /** Whether the page supplied a post-save hook. */
    const hasPostSaveHook: bool
    const paramChangesService: Store<seq<ParamChange>>
    const paramSpecsService: Store<map<string, ParamSpec>>
    const alerts: AlertsLog

    var isOpen: bool
    var warningText: string
    /** The options of the name dropdowns; may lag behind the specs. */
    var paramNameChoices: seq<NameChoice>
    /** How often the post-save hook has been called. */
    var postSaveHookCalls: nat

    constructor (reservedNames: seq<string>, hasPostSaveHook: bool,
                 paramChangesService: Store<seq<ParamChange>>,
                 paramSpecsService: Store<map<string, ParamSpec>>,
                 alerts: AlertsLog)
      ensures this.reservedNames == reservedNames && this.hasPostSaveHook == hasPostSaveHook
      ensures this.paramChangesService == paramChangesService
      ensures this.paramSpecsService == paramSpecsService
      ensures this.alerts == alerts
      ensures !isOpen && warningText == "" && paramNameChoices == [] && postSaveHookCalls == 0
    {
      this.reservedNames := reservedNames;
      this.hasPostSaveHook := hasPostSaveHook;
      this.paramChangesService := paramChangesService;
      this.paramSpecsService := paramSpecsService;
      this.alerts := alerts;
      isOpen := false;
      warningText := "";
      paramNameChoices := [];
      postSaveHookCalls := 0;
    }

    /**
     * Append a default Copier entry named after the first dropdown choice.
     * The name is registered with the default spec, and the choices rebuilt,
     * unless the choice array itself has an own property of that name, so a
     * spec the name already had is overwritten.
     */
    method AddParamChange()
      modifies paramChangesService`displayed, paramSpecsService`displayed, this`paramNameChoices
      ensures var name := NewParamName(old(paramNameChoices));
        && paramChangesService.displayed == old(paramChangesService.displayed) + [DefaultParameterChange(name)]
        && if ArrayHasOwnProperty(|old(paramNameChoices)|, name) then
             && paramSpecsService.displayed == old(paramSpecsService.displayed)
             && paramNameChoices == old(paramNameChoices)
           else
             && paramSpecsService.displayed == old(paramSpecsService.displayed)[name := DEFAULT_PARAM_SPEC]
             && paramNameChoices == GenerateParamNameChoices(paramSpecsService.displayed)
      ensures var name := NewParamName(old(paramNameChoices));
        IsAlphabetic(name) && name != "length" ==>
          name in paramSpecsService.displayed && paramSpecsService.displayed[name] == DEFAULT_PARAM_SPEC
    {
      var newParamName := if |paramNameChoices| > 0 then paramNameChoices[0].id else FALLBACK_PARAM_NAME;
      var newParamChange := DefaultParameterChange(newParamName);
      if IsAlphabetic(newParamName) && newParamName != "length" {
        AlphabeticNameIsNotArrayProperty(|paramNameChoices|, newParamName);
      }
      if !ArrayHasOwnProperty(|paramNameChoices|, newParamChange.name) {
        paramSpecsService.displayed := paramSpecsService.displayed[newParamChange.name := DEFAULT_PARAM_SPEC];
        paramNameChoices := GenerateParamNameChoices(paramSpecsService.displayed);
      }
      paramChangesService.displayed := paramChangesService.displayed + [newParamChange];
    }

    /**
     * Open the editor when the exploration may be edited, rebuild the name
     * choices, and seed an empty list with one default entry.
     */
    method OpenParamChangesEditor(editable: bool)
      modifies this`isOpen, this`paramNameChoices, paramChangesService`displayed, paramSpecsService`displayed
      ensures !editable ==> unchanged(this, paramChangesService, paramSpecsService)
      ensures editable ==> isOpen
      ensures editable && old(paramChangesService.displayed) != [] ==>
        && paramChangesService.displayed == old(paramChangesService.displayed)
        && paramSpecsService.displayed == old(paramSpecsService.displayed)
        && paramNameChoices == GenerateParamNameChoices(paramSpecsService.displayed)
      ensures editable && old(paramChangesService.displayed) == [] ==>
        var specs := old(paramSpecsService.displayed);
        var name := if |specs| == 0 then FALLBACK_PARAM_NAME else Least(specs.Keys);
        && paramChangesService.displayed == [DefaultParameterChange(name)]
        && (|specs| == 0 || name in specs)
        && paramSpecsService.displayed ==
             (if ArrayHasOwnProperty(|specs|, name) then specs else specs[name := DEFAULT_PARAM_SPEC])
        && paramNameChoices == GenerateParamNameChoices(paramSpecsService.displayed)
    {
      if !editable {
        return;
      }
      isOpen := true;
      paramNameChoices := GenerateParamNameChoices(paramSpecsService.displayed);
      if |paramChangesService.displayed| == 0 {
        if |paramSpecsService.displayed| > 0 {
          FirstChoiceIsLeastKey(paramSpecsService.displayed);
        }
        AddParamChange();
      }
    }

    /** Reset the arguments of entry `index` to the defaults of its generator id. */
    method OnChangeGeneratorType(index: nat)
      requires index < |paramChangesService.displayed|
      modifies paramChangesService`displayed
      ensures paramChangesService.displayed ==
        old(paramChangesService.displayed)[index := WithDefaultArgs(old(paramChangesService.displayed)[index])]
    {
      var paramChange := paramChangesService.displayed[index];
      paramChange := paramChange.(customizationArgs := DefaultCustomizationArgs(paramChange.generatorId));
      paramChangesService.displayed := paramChangesService.displayed[index := paramChange];
    }

    /**
     * The checks the validation loop makes on one entry, in its order: empty
     * name, reserved name, non-alphabetic name, unknown generator id, empty
     * value list. Reading `list_of_values` of arguments that lack it throws.
     * This is the loop body of `AreDisplayedParamChangesValid`; the function
     * `EntryVerdict` is its specification.
     */
    method CheckParamChange(paramChange: ParamChange) returns (verdict: Verdict)
      ensures verdict == EntryVerdict(paramChange, reservedNames)
      ensures verdict == Accept <==> EntryOk(paramChange, reservedNames)
    {
      var paramName := paramChange.name;
      if paramName == "" {
        return Reject(EMPTY_NAME_MESSAGE);
      }
      if paramName in reservedNames {
        return Reject(ReservedNameMessage(paramName));
      }
      if !IsAlphabetic(paramName) {
        return Reject(NON_ALPHABETIC_MESSAGE);
      }
      var generatorId := paramChange.generatorId;
      var customizationArgs := paramChange.customizationArgs;
      if !IsKnownGenerator(generatorId) {
        return Reject(NO_GENERATOR_MESSAGE);
      }
      if generatorId == RANDOM_SELECTOR {
        if !customizationArgs.RandomSelector? {
          return TypeError;
        }
        if |customizationArgs.listOfValues| == 0 {
          return Reject(NO_VALUES_MESSAGE);
        }
      }
      return Accept;
    }

    /**
     * Check the entries in order and stop at the first that does not pass,
     * leaving its message in `warningText`; clear the text when all pass.
     */
    method AreDisplayedParamChangesValid() returns (verdict: Verdict)
      modifies this`warningText
      ensures verdict == ValidateAll(paramChangesService.displayed, reservedNames)
      ensures verdict == Accept ==> warningText == ""
      ensures verdict.Reject? ==> warningText == verdict.message
      ensures verdict == TypeError ==> warningText == old(warningText)
    {
      var paramChanges := paramChangesService.displayed;
      var i := 0;
      while i < |paramChanges|
        invariant 0 <= i <= |paramChanges|
        invariant ValidateAll(paramChanges, reservedNames) == ValidateAll(paramChanges[i..], reservedNames)
        invariant warningText == old(warningText)
      {
        var entryVerdict := CheckParamChange(paramChanges[i]);
        ValidateAllAt(paramChanges, reservedNames, i);
        if entryVerdict.Reject? {
          warningText := entryVerdict.message;
        }
        if entryVerdict != Accept {
          return entryVerdict;
        }
        i := i + 1;
      }
      assert paramChanges[i..] == [];
      warningText := "";
      return Accept;
    }

    /**
     * Add every entry's name that the specs lack, with the default spec
     * (the `forEach` the save, delete and reorder handlers share).
     */
    method RegisterEntryNames()
      modifies paramSpecsService`displayed
      ensures paramSpecsService.displayed ==
        RegisterMissingNames(old(paramSpecsService.displayed), paramChangesService.displayed)
    {
      var paramChanges := paramChangesService.displayed;
      var i := 0;
      while i < |paramChanges|
        invariant 0 <= i <= |paramChanges|
        invariant paramSpecsService.displayed ==
          RegisterMissingNames(old(paramSpecsService.displayed), paramChanges[..i])
      {
        var paramName := paramChanges[i].name;
        assert paramChanges[..i + 1][..i] == paramChanges[..i];
        if paramName !in paramSpecsService.displayed {
          paramSpecsService.displayed := paramSpecsService.displayed[paramName := DEFAULT_PARAM_SPEC];
        }
        i := i + 1;
      }
      assert paramChanges[..i] == paramChanges;
    }

    /**
     * Validate; on failure raise one warning and stay open. On success close,
     * rebuild the specs from their snapshot plus every entry's missing name,
     * commit both services and call the post-save hook. A thrown error leaves
     * everything as it was.
     */
    method SaveParamChanges()
      modifies this`warningText, this`isOpen, this`postSaveHookCalls
      modifies alerts, paramChangesService, paramSpecsService
      ensures var verdict := ValidateAll(old(paramChangesService.displayed), reservedNames);
        && (verdict == TypeError ==>
              unchanged(this, alerts, paramChangesService, paramSpecsService))
        && (verdict.Reject? ==>
              && alerts.warnings == old(alerts.warnings) + [INVALID_CHANGES_WARNING]
              && warningText == verdict.message
              && isOpen == old(isOpen)
              && postSaveHookCalls == old(postSaveHookCalls)
              && unchanged(paramChangesService, paramSpecsService))
        && (verdict == Accept ==>
              && alerts.warnings == old(alerts.warnings)
              && warningText == ""
              && !isOpen
              && paramChangesService.displayed == old(paramChangesService.displayed)
              && paramChangesService.memento == old(paramChangesService.displayed)
              && paramSpecsService.displayed ==
                   RegisterMissingNames(old(paramSpecsService.memento), old(paramChangesService.displayed))
              && paramSpecsService.memento == paramSpecsService.displayed
              && postSaveHookCalls == old(postSaveHookCalls) + (if hasPostSaveHook then 1 else 0))
    {
      var verdict := AreDisplayedParamChangesValid();
      if verdict == TypeError {
        return;
      }
      if verdict != Accept {
        alerts.AddWarning(INVALID_CHANGES_WARNING);
        return;
      }
      isOpen := false;
      paramSpecsService.RestoreFromMemento();
      RegisterEntryNames();
      paramSpecsService.SaveDisplayedValue();
      paramChangesService.SaveDisplayedValue();
      if hasPostSaveHook {
        postSaveHookCalls := postSaveHookCalls + 1;
      }
    }

    /**
     * Delete entry `index`. An index outside the list raises a warning but
     * does not stop the handler: the names are registered, the choices
     * rebuilt, and `splice(index, 1)` runs anyway.
     */
    method DeleteParamChange(index: int)
      modifies alerts, paramSpecsService`displayed, this`paramNameChoices, paramChangesService`displayed
      ensures 0 <= index < |old(paramChangesService.displayed)| ==> alerts.warnings == old(alerts.warnings)
      ensures !(0 <= index < |old(paramChangesService.displayed)|) ==>
        alerts.warnings == old(alerts.warnings) + [DeleteOutOfRangeWarning(index)]
      ensures paramSpecsService.displayed ==
        RegisterMissingNames(old(paramSpecsService.displayed), old(paramChangesService.displayed))
      ensures paramNameChoices == GenerateParamNameChoices(paramSpecsService.displayed)
      ensures paramChangesService.displayed == SpliceOne(old(paramChangesService.displayed), index)
    {
      ghost var warningsBefore := alerts.warnings;
      if index < 0 || index >= |paramChangesService.displayed| {
        alerts.AddWarning(DeleteOutOfRangeWarning(index));
      }
      ghost var warningsAfter := alerts.warnings;
      RegisterEntryNames();
      assert alerts.warnings == warningsAfter;
      paramNameChoices := GenerateParamNameChoices(paramSpecsService.displayed);
      paramChangesService.displayed := SpliceOne(paramChangesService.displayed, index);
    }

    /** The sortable list's `stop` hook, after a drag: register names and rebuild the choices. */
    method SortableStop()
      modifies paramSpecsService`displayed, this`paramNameChoices
      ensures paramSpecsService.displayed ==
        RegisterMissingNames(old(paramSpecsService.displayed), paramChangesService.displayed)
      ensures paramNameChoices == GenerateParamNameChoices(paramSpecsService.displayed)
    {
      RegisterEntryNames();
      paramNameChoices := GenerateParamNameChoices(paramSpecsService.displayed);
    }

    /** Discard the edits to the list and close; the specs keep any names registered meanwhile. */
    method CancelEdit()
      modifies paramChangesService`displayed, this`isOpen
      ensures paramChangesService.displayed == paramChangesService.memento
      ensures !isOpen
    {
      paramChangesService.RestoreFromMemento();
      isOpen := false;
    }

    /** The page-wide save request: save only while the editor is open. */
    method ExternalSave()
      modifies this`warningText, this`isOpen, this`postSaveHookCalls
      modifies alerts, paramChangesService, paramSpecsService
      ensures !old(isOpen) ==> unchanged(this, alerts, paramChangesService, paramSpecsService)
      ensures var verdict := ValidateAll(old(paramChangesService.displayed), reservedNames);
        old(isOpen) ==>
          && (verdict == TypeError ==>
                unchanged(this, alerts, paramChangesService, paramSpecsService))
          && (verdict.Reject? ==>
                && alerts.warnings == old(alerts.warnings) + [INVALID_CHANGES_WARNING]
                && warningText == verdict.message
                && isOpen
                && postSaveHookCalls == old(postSaveHookCalls)
                && unchanged(paramChangesService, paramSpecsService))
          && (verdict == Accept ==>
                && alerts.warnings == old(alerts.warnings)
                && warningText == ""
                && !isOpen
                && paramChangesService.displayed == old(paramChangesService.displayed)
                && paramChangesService.memento == old(paramChangesService.displayed)
                && paramSpecsService.displayed ==
                     RegisterMissingNames(old(paramSpecsService.memento), old(paramChangesService.displayed))
                && paramSpecsService.memento == paramSpecsService.displayed
                && postSaveHookCalls == old(postSaveHookCalls) + (if hasPostSaveHook then 1 else 0))
    {
      if isOpen {
        SaveParamChanges();
      }
    }
  }

  /**
   * Saving a valid list a second time, with no edit in between, commits the
   * same snapshots as the first save did.
   */
  method SaveTwice(editor: ParamChangesEditor)
    requires ValidateAll(editor.paramChangesService.displayed, editor.reservedNames) == Accept
    modifies editor, editor.alerts, editor.paramChangesService, editor.paramSpecsService
    ensures editor.paramChangesService.memento == old(editor.paramChangesService.displayed)
    ensures editor.paramSpecsService.memento ==
      RegisterMissingNames(old(editor.paramSpecsService.memento), old(editor.paramChangesService.displayed))
    ensures editor.alerts.warnings == old(editor.alerts.warnings)
  {
    editor.SaveParamChanges();
    editor.SaveParamChanges();
    RegisterMissingNamesIdempotent(old(editor.paramSpecsService.memento), old(editor.paramChangesService.displayed));
  }
}
