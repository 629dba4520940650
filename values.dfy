/** Values shared by the clinical clean-up engine and the study subset filter. */
module Values {

  datatype Option<+T> = None | Some(value: T)

  /** A computation that either yields a value or aborts the run; usable with `:-`. */
  datatype Result<+T> = Ok(value: T) | Err(error: Abort) {
    predicate IsFailure() { Err? }

    function PropagateFailure<U>(): Result<U>
      requires Err?
    {
      Err(error)
    }

    function Extract(): T
      requires Ok?
    {
      value
    }
  }

  /** A field of a tab-delimited row as the CSV reader hands it over: a string, or
      Python's None (a short row, or a value the resolver could not determine). */
  datatype Cell = Text(s: string) | NoValue

  /** Why a run stops. All but PythonError are the scripts' own `sys.exit(2)` calls;
      PythonError stands for an exception the scripts do not catch. */
  datatype Abort =
    | InvalidProcessingType(ptype: string)
    | InconsistentValues(normAttr: string, values: seq<Cell>)
    | UnnormalizedAttribute(attr: string)
    | EmptySubsetList
    | NoClinicalFiles
    | PythonError(kind: string)

  function GetOr<K, V>(m: map<K, V>, k: K, default: V): V
  {
    if k in m then m[k] else default
  }
}
