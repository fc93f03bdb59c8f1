/** Identifiers, results and responses shared by the user and content modules. */
module Common {

  /** Primary keys of the three stored entities. */
  type UserId = nat
  type PostId = nat
  type CommentId = nat

  datatype Option<T> = None | Some(value: T) {
    function GetOr(default: T): T {
      match this
      case Some(v) => v
      case None => default
    }
  }

  /** The exceptions the core raises or lets escape. */
  datatype Error =
    | ValueError(message: string)        // raised by the user manager
    | ValidationError(message: string)   // raised by a serializer
    | IntegrityError(column: string)     // a unique constraint of the database
    | DoesNotExist(model: string)        // `Model.objects.get` found no row

  datatype Result<T> = Ok(value: T) | Err(error: Error)

  /** An HTTP response: status code and the "detail" message of its body. */
  datatype Response = Response(status: nat, detail: string)

  /** The elements of `s` that satisfy `p`, in their original order (a queryset `.filter`). */
  function Filter<T(!new)>(s: seq<T>, p: T -> bool): (r: seq<T>)
    ensures |r| <= |s|
    ensures forall x :: x in r <==> x in s && p(x)
    decreases |s|
  {
    if s == [] then []
    else if p(s[0]) then [s[0]] + Filter(s[1..], p)
    else Filter(s[1..], p)
  }

  /** Filtering a sequence with one more element at the end filters that element alone. */
  lemma {:induction false} FilterAppend<T(!new)>(s: seq<T>, x: T, p: T -> bool)
    ensures Filter(s + [x], p) == Filter(s, p) + (if p(x) then [x] else [])
    decreases |s|
  {
    if s == [] {
      assert s + [x] == [x];
    } else {
      assert (s + [x])[1..] == s[1..] + [x];
      FilterAppend(s[1..], x, p);
    }
  }
}
