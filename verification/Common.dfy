/** Shared by every module: a value that may be absent, a value or the exception raised instead of
    it, and two helpers on text and lists. */
module Common {
  datatype Option<+T> = None | Some(value: T)

  datatype Result<+T, +E> = Ok(value: T) | Err(error: E)

  predicate IsDigit(c: char) {
    '0' <= c <= '9'
  }

  function Without(ids: seq<nat>, id: nat): seq<nat> {
    if ids == [] then []
    else Without(ids[..|ids| - 1], id) + if ids[|ids| - 1] == id then [] else [ids[|ids| - 1]]
  }

  lemma {:induction false} WithoutMembers(ids: seq<nat>, id: nat, other: nat)
    ensures other in Without(ids, id) <==> other in ids && other != id
  {
    if ids != [] {
      WithoutMembers(ids[..|ids| - 1], id, other);
      assert ids == ids[..|ids| - 1] + [ids[|ids| - 1]];
    }
  }
}
