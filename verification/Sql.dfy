// The parts of SQL the statements of the authorization store rely on:
// nullable columns, three-valued comparison and the row filter of WHERE.
module Sql {
  datatype Option<+T> = None | Some(value: T)

  // UUIDs are opaque; the three values the migrations spell out are named.
  type Uuid = nat

  const NIL_UUID: Uuid := 0
  const DEFAULT_TENANT: Uuid := 1
  const DEFAULT_PROJECT: Uuid := 2

  // gen_random_uuid() and Uuid::new_v4() set the version bits, so they never
  // yield one of the fixed values above.
  type RandomUuid = u: nat | DEFAULT_PROJECT < u witness 3

  datatype Truth = True | False | Unknown

  function IsNull<T>(a: Option<T>): Truth {
    if a.None? then True else False
  }

  // SQL `=`: unknown as soon as one side is NULL.
  function Equals<T(==)>(a: Option<T>, b: Option<T>): Truth {
    if a.None? || b.None? then Unknown else if a.value == b.value then True else False
  }

  function Or(a: Truth, b: Truth): Truth {
    if a.True? || b.True? then True
    else if a.Unknown? || b.Unknown? then Unknown
    else False
  }

  // WHERE, JOIN and row-security filters keep a row only when the condition is
  // true; unknown drops it.
  predicate Holds(t: Truth) {
    t.True?
  }

  function Coalesce<T>(a: Option<T>, default: T): T {
    if a.None? then default else a.value
  }

  function Nullif(text: string): Option<string> {
    if text == "" then None else Some(text)
  }

  // The row a query without a tie-breaking order happens to return.
  ghost function Pick<T>(rows: set<T>): (row: T)
    requires rows != {}
    ensures row in rows
  {
    var row :| row in rows;
    row
  }

  lemma PickOfSingleton<T>(rows: set<T>, row: T)
    requires row in rows
    requires forall other | other in rows :: other == row
    ensures rows == {row} && Pick(rows) == row
  {
  }
}
