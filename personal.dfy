/** The personal-name heuristic `is_personal_name` (app.py lines 25-29). */
module Personal {
  import opened Sheet
  import opened Text

  /** A recipient counts as a person when its trimmed text has at most two
      whitespace-separated tokens; a missing cell never does. The `strip()`
      before `split()` is redundant, so the count is that of the raw text. */
  function IsPersonalName(name: Cell): (r: bool)
    ensures r <==> name.Some? && |Words(name.value)| <= 2
  {
    match name
    case None => false
    case Some(s) =>
      WordsOfStrip(s);
      |Words(Strip(s))| <= 2
  }
}
