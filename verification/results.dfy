/** The outcome of a calculator run (its figures, or the message the page
    shows instead of computing), and how the pages read their form fields. */
module Results {

  datatype Result<T> = Ok(value: T) | Err(message: string)
  {
    predicate IsFailure()
    {
      Err?
    }

    function PropagateFailure<U>(): Result<U>
      requires Err?
    {
      Err(message)
    }

    function Extract(): T
      requires Ok?
    {
      value
    }
  }

  datatype Option<T> = None | Some(value: T)

  /** A numeric form field as `parseFloat` reads it: `None` when the entry
      is not a number. */
  type Field = Option<real>

  /** `parseFloat(v) || d`: a missing, non-numeric or zero entry falls back to `d`. */
  function OrDefault(v: Field, d: real): (r: real)
    ensures v.Some? && v.value != 0.0 ==> r == v.value
    ensures v.None? || v.value == 0.0 ==> r == d
  {
    if v.Some? && v.value != 0.0 then v.value else d
  }

  /** `r` is what `parseFloat(v) || d` reads: an entered non-zero figure is
      kept, and a missing, unreadable or zero entry takes `d`. */
  predicate ReadsAs(r: real, v: Field, d: real)
  {
    && (v.Some? && v.value != 0.0 ==> r == v.value)
    && (v.None? || v.value == 0.0 ==> r == d)
  }

  /** The same for `parseInt(v) || d`. */
  predicate ReadsAsInt(r: int, v: Option<int>, d: int)
  {
    && (v.Some? && v.value != 0 ==> r == v.value)
    && (v.None? || v.value == 0 ==> r == d)
  }

  /** `parseInt(v) || d` for an integer field. */
  function OrDefaultInt(v: Option<int>, d: int): (r: int)
    ensures v.Some? && v.value != 0 ==> r == v.value
    ensures v.None? || v.value == 0 ==> r == d
  {
    if v.Some? && v.value != 0 then v.value else d
  }
}
