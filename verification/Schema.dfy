/** Vocabulary shared by every table of the backend. */
module Schema {

  datatype Option<+T> = None | Some(value: T)

  /** The HTTP errors the services throw; `Internal` is any error they let escape. */
  datatype Error = BadRequest | Unauthorized | Forbidden | NotFound | Conflict | TooManyRequests | Internal

  datatype Result<+T> = Ok(value: T) | Err(error: Error)

  /** Row ids. The originals are UUIDs: opaque, compared only for equality, never reused. */
  type Id = nat

  /** A point in time or a duration, in milliseconds. */
  type Time = int

  datatype Status = Imported | Active | Merged | Blocked

  datatype IdentifierType = Phone | Email

  /** A normalized phone number or e-mail address. */
  datatype Identifier = Identifier(kind: IdentifierType, value: string)

  function Max(a: int, b: int): int { if a > b then a else b }

  function Min(a: int, b: int): int { if a < b then a else b }

  /** `parts.join(separator)`. */
  function Join(parts: seq<string>, separator: string): string {
    if parts == [] then "" else if |parts| == 1 then parts[0] else parts[0] + separator + Join(parts[1..], separator)
  }

  function Elements(s: seq<Id>): set<Id> {
    set i | i in s
  }

  lemma {:induction false} DistinctCount(s: seq<Id>)
    requires forall k, l :: 0 <= k < l < |s| ==> s[k] != s[l]
    ensures |Elements(s)| == |s|
  {
    if s != [] {
      DistinctCount(s[1..]);
      assert Elements(s) == {s[0]} + Elements(s[1..]);
    }
  }

  /** A read without ORDER BY: every row once, in an order the database chooses. */
  method Enumerate(ids: set<Id>) returns (rows: seq<Id>)
    ensures forall i :: i in rows <==> i in ids
    ensures forall k, l :: 0 <= k < l < |rows| ==> rows[k] != rows[l]
    ensures |rows| == |ids|
  {
    rows := [];
    var todo := ids;
    while todo != {}
      invariant todo <= ids && |rows| + |todo| == |ids|
      invariant forall i :: i in rows <==> i in ids - todo
      invariant forall k, l :: 0 <= k < l < |rows| ==> rows[k] != rows[l]
      decreases todo
    {
      var i :| i in todo;
      rows, todo := rows + [i], todo - {i};
    }
  }
}
