/** The annotation form: its seven inputs and `form_check`, which decides whether the submit
    button is disabled. */
module Form {
  import opened Base

  /** The values of the seven form inputs; None where the component holds no value. */
  datatype Draft = Draft(
    strain: Option<string>, chrom: Option<string>, event: Option<string>, loh: Option<string>,
    left: Option<string>, right: Option<string>, tlabel: Option<string>)

  /** Every field holds a value (possibly empty): the condition under which `insert` writes. */
  predicate AllPresent(d: Draft) {
    d.strain.Some? && d.chrom.Some? && d.event.Some? && d.loh.Some?
    && d.left.Some? && d.right.Some? && d.tlabel.Some?
  }

  /** `form_check` as written: the left-boundary test reads "present OR not empty", which no
      value fails, so the left boundary is never looked at. Returns whether submit is
      disabled. */
  function FormCheckAsWritten(d: Draft): (disabled: bool)
    ensures !disabled <==>
      Filled(d.strain) && Filled(d.chrom) && Filled(d.event) && d.event.value != "Unknown"
      && Filled(d.loh) && Filled(d.right) && Filled(d.tlabel)
  {
    if Filled(d.strain) && Filled(d.chrom)
       && (Filled(d.event) && d.event.value != "Unknown")
       && Filled(d.loh) && (d.left.Some? || d.left != Some(""))
       && Filled(d.right) && Filled(d.tlabel)
    then false
    else true
  }

  /** The left boundary never changes the as-written verdict. */
  lemma AsWrittenIgnoresLeft(d: Draft, left: Option<string>)
    ensures FormCheckAsWritten(d.(left := left)) == FormCheckAsWritten(d)
  {
  }

  /** With no left boundary the as-written check enables submit, and `insert`, which needs
      every field, then stores nothing. */
  lemma AsWrittenEnablesIncompleteForm()
    ensures var d := Draft(Some("S1"), Some("IV"), Some("CON"), Some("A"), None, Some("1200"), Some("t1"));
      !FormCheckAsWritten(d) && !AllPresent(d)
  {
  }

  /** `form_check` with the left boundary held to the same test as the right one. */
  function FormCheck(d: Draft): (disabled: bool)
    ensures !disabled ==> AllPresent(d)
    ensures disabled <==> FormCheckAsWritten(d) || !Filled(d.left)
  {
    !(Filled(d.strain) && Filled(d.chrom) && Filled(d.event) && d.event.value != "Unknown"
      && Filled(d.loh) && Filled(d.left) && Filled(d.right) && Filled(d.tlabel))
  }
}
