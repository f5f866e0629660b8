/** The name-to-id dictionaries the script builds from the `area` and
    `category` rows: `{row['name']: row['id'] for row in rows}`. */
module Lookup {

  /** A row selected with `select("id, name")`. */
  datatype Named = Named(id: int, name: string)

  /** The dict comprehension over `rows`: every name of a row is a key, every key is
      the name of a row and maps to that row's id, and a later row with the same name
      overwrites an earlier one. */
  function NameToId(rows: seq<Named>): (m: map<string, int>)
    ensures forall i :: 0 <= i < |rows| ==> rows[i].name in m
    ensures forall n :: n in m ==> exists i :: 0 <= i < |rows| && rows[i] == Named(m[n], n)
    decreases |rows|
  {
    if rows == [] then
      map[]
    else
      var last := rows[|rows| - 1];
      NameToId(rows[..|rows| - 1])[last.name := last.id]
  }

  /** The id stored for a name is that of the LAST row carrying the name. */
  lemma {:induction false} LastRowWins(rows: seq<Named>, i: nat)
    requires i < |rows|
    requires forall j :: i < j < |rows| ==> rows[j].name != rows[i].name
    ensures NameToId(rows)[rows[i].name] == rows[i].id
    decreases |rows|
  {
    if i < |rows| - 1 {
      var front := rows[..|rows| - 1];
      assert forall j :: i < j < |front| ==> front[j] == rows[j];
      LastRowWins(front, i);
    }
  }

  /** `not rows` and "the dict is empty" agree, so the empty-list checks at the
      script's `if not areas` and `if not categories` test the dict's emptiness too. */
  lemma EmptyIff(rows: seq<Named>)
    ensures NameToId(rows) == map[] <==> rows == []
  {
    if rows != [] {
      assert rows[0].name in NameToId(rows);
    }
  }
}
