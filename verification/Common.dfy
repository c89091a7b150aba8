/** Shared vocabulary: identifiers, time, optional values and the outcomes of a service call. */
module Common {

  type Id = string

  /** Instants and durations, in whole microseconds. */
  type Time = int

  const SECOND: Time := 1_000_000
  const DAY: Time := 86_400_000_000

  datatype Option<+T> = None | Some(value: T)

  /** The exceptions that leave a service call, one constructor per class that callers tell apart. */
  datatype Error =
    | RepoNotFound          // repository.NotFound
    | MultipleResults       // sqlalchemy MultipleResultsFound
    | MissingEntities       // repository.MissingEntities
    | UowAlreadyExists      // uow.AlreadyExists
    | UowError              // uow.UOWException
    | NotAllowed            // services.NotAllowed
    | NotFound              // services.NotFound
    | DomainNotFound        // services.DomainNotFound
    | AlreadyExists         // services.AlreadyExists
    | ConnectionError       // authorization.ConnectionException
    | ValidationError       // jsonschema ValidationError
    | ClientError           // authorization.AuthorizationClientException
    | ApiError              // base_client.APIClientException
    | SessionError          // any exception of the HTTP session that the client lets through
    | KeyError
    | ValueError
    | AttributeError
    | BadRequest            // HTTP 400 raised by a router
    | Unauthorized          // HTTP 401 raised by a dependency

  datatype Result<+T> = Ok(value: T) | Err(error: Error)

  predicate Distinct<T(==)>(s: seq<T>) {
    forall i, j :: 0 <= i < j < |s| ==> s[i] != s[j]
  }

  /** `rows` lists every element of `s` once, in some order: what a query returns. */
  ghost predicate Enumerates<T>(rows: seq<T>, s: set<T>) {
    && Distinct(rows)
    && (forall x | x in rows :: x in s)
    && (forall x | x in s :: x in rows)
  }

  lemma {:induction false} EnumeratesCount<T>(rows: seq<T>, s: set<T>)
    requires Enumerates(rows, s)
    ensures |rows| == |s|
  {
    if |rows| == 0 {
      assert s == {};
    } else {
      var last := rows[|rows| - 1];
      EnumeratesCount(rows[..|rows| - 1], s - {last});
    }
  }

  /** Two duplicate-free lists of the same elements are permutations of one another. */
  lemma {:induction false} SameElementsPermute<T(!new)>(a: seq<T>, b: seq<T>)
    requires Distinct(a) && Distinct(b)
    requires forall x :: x in a <==> x in b
    ensures multiset(a) == multiset(b)
  {
    forall x
      ensures multiset(a)[x] == multiset(b)[x]
    {
      DistinctMultiplicity(a, x);
      DistinctMultiplicity(b, x);
    }
  }

  lemma {:induction false} DistinctMultiplicity<T>(a: seq<T>, x: T)
    requires Distinct(a)
    ensures multiset(a)[x] == if x in a then 1 else 0
  {
    if |a| > 0 {
      var n := |a| - 1;
      assert a == a[..n] + [a[n]];
      DistinctMultiplicity(a[..n], x);
    }
  }

  /** Lists a finite set in some order, as a query lists its rows. */
  method Rows<T(==)>(s: set<T>) returns (rows: seq<T>)
    ensures Enumerates(rows, s)
  {
    rows := [];
    var todo := s;
    while todo != {}
      invariant todo <= s
      invariant Enumerates(rows, s - todo)
      decreases todo
    {
      var x :| x in todo;
      todo := todo - {x};
      rows := rows + [x];
    }
  }
}
