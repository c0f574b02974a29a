/**
 * How the PostgreSQL columns of the relational tables take a value, and how
 * an insert or a save can fail.
 */
module Db {
  import opened Wrappers

  datatype DbError =
    | ValidationError   // a model-level `validate` rule rejected a field
    | ValueTooLong      // a VARCHAR(n) column received more than n characters, not all of the excess spaces
    | OutOfRange        // an INTEGER column received a value outside 32 bits
    | UniqueViolation   // a unique column already holds the value

  /** Whether every character from position `n` on is a space. */
  predicate SpacesFrom(s: string, n: nat) {
    forall i :: n <= i < |s| ==> s[i] == ' '
  }

  /**
   * Storing `s` in a VARCHAR(n) column: a value of at most n characters is
   * kept as it is; a longer one is cut to n characters when everything cut
   * is a space, and refused otherwise.
   */
  function Varchar(s: string, n: nat): (r: Option<string>)
    ensures r.Some? <==> SpacesFrom(s, n)
    ensures r.Some? ==> r.value <= s && |r.value| == (if |s| <= n then |s| else n)
  {
    if |s| <= n then Some(s)
    else if SpacesFrom(s, n) then Some(s[..n])
    else None
  }

  /** What a VARCHAR column keeps, it keeps unchanged when stored again. */
  lemma VarcharIdempotent(s: string, n: nat)
    requires Varchar(s, n).Some?
    ensures Varchar(Varchar(s, n).value, n) == Varchar(s, n)
  {
  }

  /** Only trailing spaces are ever lost: the kept value padded back gives the input. */
  lemma VarcharLosesOnlySpaces(s: string, n: nat)
    requires Varchar(s, n).Some?
    ensures var kept := Varchar(s, n).value;
            s == kept + s[|kept|..] && forall i :: |kept| <= i < |s| ==> s[i] == ' '
  {
    var kept := Varchar(s, n).value;
    assert s == s[..|kept|] + s[|kept|..];
  }

  const MinInteger := -2147483648
  const MaxInteger := 2147483647

  /** Whether an INTEGER column, 32 bits wide, can hold `v`. */
  predicate IsInteger(v: int) {
    MinInteger <= v <= MaxInteger
  }
}
