/** `PyMdownEditText`: the write-through slot `wbfr` that carries text from
    a conversion's callback into the edit that inserts it into a view. */
module EditText {
  import opened Wrappers
  import opened Helpers

  /** A view's text and the class-level slot. */
  datatype EditState = EditState(text: string, slot: Option<string>)

  /** How an edit ends: applied (and saved or not), turned away for an
      unknown mode with the error reported, or raised because the slot was
      empty (`handle_line_endings(None)` fails on `None.replace`). */
  datatype EditOutcome =
    | Applied(state: EditState, saved: bool)
    | Rejected(state: EditState)
    | Raised(state: EditState, error: Exception)

  const InvalidMode := "Invalid edit mode!"
  const NoneReplace := "'NoneType' object has no attribute 'replace'"

  /** `set_wbfr`. */
  function SetWbfr(st: EditState, text: string): (r: EditState)
    ensures r.slot == Some(text) && r.text == st.text
  {
    st.(slot := Some(text))
  }

  /** `clear_wbfr`. */
  function ClearWbfr(st: EditState): (r: EditState)
    ensures r.slot.None? && r.text == st.text
  {
    st.(slot := None)
  }

  /** `PyMdownEditText.run`: "insert" puts the normalised slot text at the
      start of the view, "replace" makes it the whole view, any other mode
      is reported and changes nothing; the slot ends up empty in every case,
      and a save happens only after a successful edit that asked for one. */
  function Run(st: EditState, mode: string, save: bool): (r: EditOutcome)
    ensures r.state.slot.None?
    ensures r.Applied? <==> (mode == "insert" || mode == "replace") && st.slot.Some?
    ensures r.Rejected? <==> mode != "insert" && mode != "replace"
    ensures r.Applied? && mode == "insert" ==> r.state.text == HandleLineEndings(st.slot.value) + st.text
    ensures r.Applied? && mode == "replace" ==> r.state.text == HandleLineEndings(st.slot.value)
    ensures !r.Applied? ==> r.state.text == st.text
    ensures r.Applied? ==> r.saved == save
  {
    if mode == "insert" then
      if st.slot.None? then Raised(st, AttributeError(NoneReplace))
      else Applied(ClearWbfr(st.(text := HandleLineEndings(st.slot.value) + st.text)), save)
    else if mode == "replace" then
      if st.slot.None? then Raised(st, AttributeError(NoneReplace))
      else Applied(ClearWbfr(st.(text := HandleLineEndings(st.slot.value))), save)
    else
      Rejected(ClearWbfr(st))
  }

  /** The hand-off used by the critic command and by exporting to a new
      tab: set the slot, then replace (or insert into an empty view); the
      view ends up holding the result without carriage returns, and the
      slot is empty again. */
  lemma HandOff(st: EditState, results: string, save: bool)
    ensures Run(SetWbfr(st, results), "replace", save) ==
      Applied(EditState(HandleLineEndings(results), None), save)
    ensures Run(SetWbfr(EditState("", None), results), "insert", save) ==
      Applied(EditState(HandleLineEndings(results), None), save)
    ensures forall i :: 0 <= i < |HandleLineEndings(results)| ==> HandleLineEndings(results)[i] != '\r'
  {
    assert HandleLineEndings(results) + "" == HandleLineEndings(results);
  }

  /** The slot is single-use: an edit run again without a new `set_wbfr`
      raises, whatever the first edit did. */
  lemma SingleUse(st: EditState, mode1: string, save1: bool, mode2: string, save2: bool)
    requires mode2 == "insert" || mode2 == "replace"
    ensures Run(Run(st, mode1, save1).state, mode2, save2).Raised?
  {
  }
}
