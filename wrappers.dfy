/** Optional values and error returns, standing for Python's `None` and raised errors. */
module Wrappers {

  datatype Option<+T> = None | Some(value: T) {
    function GetOr(default: T): T {
      match this
      case Some(v) => v
      case None => default
    }
  }

  datatype Result<+T, +E> = Ok(value: T) | Err(error: E)

  /** An `HTTPException`: status code and detail text. */
  datatype HttpError = HttpError(status: int, detail: string)

  /** The present values, in order: `[x for x in xs if x is not None]`. */
  function Somes<T>(xs: seq<Option<T>>): seq<T> {
    if xs == [] then []
    else Somes(xs[..|xs| - 1]) + (if xs[|xs| - 1].Some? then [xs[|xs| - 1].value] else [])
  }

  lemma SomesSnoc<T>(xs: seq<Option<T>>, x: Option<T>)
    ensures Somes(xs + [x]) == Somes(xs) + (if x.Some? then [x.value] else [])
  {
    assert (xs + [x])[..|xs|] == xs;
  }

  /** A value is kept exactly when it was present. */
  lemma {:induction false} SomesIn<T>(xs: seq<Option<T>>)
    ensures forall v :: v in Somes(xs) <==> Some(v) in xs
  {
    if xs != [] {
      var init := xs[..|xs| - 1];
      SomesIn(init);
      assert xs == init + [xs[|xs| - 1]];
    }
  }

  /** The concatenation of the parts, in order. */
  function Flatten<T>(xss: seq<seq<T>>): seq<T> {
    if xss == [] then [] else Flatten(xss[..|xss| - 1]) + xss[|xss| - 1]
  }

  /** A value is in the concatenation exactly when it is in one of the parts. */
  lemma {:induction false} FlattenIn<T>(xss: seq<seq<T>>)
    ensures forall v | v in Flatten(xss) :: exists i | 0 <= i < |xss| :: v in xss[i]
    ensures forall v, i | 0 <= i < |xss| && v in xss[i] :: v in Flatten(xss)
  {
    if xss != [] {
      var init := xss[..|xss| - 1];
      FlattenIn(init);
      forall v | v in Flatten(xss) ensures exists i | 0 <= i < |xss| :: v in xss[i] {
        if v in Flatten(init) {
          var i :| 0 <= i < |init| && v in init[i];
          assert xss[i] == init[i];
        }
      }
      forall v, i | 0 <= i < |xss| && v in xss[i] ensures v in Flatten(xss) {
        if i < |init| {
          assert init[i] == xss[i];
        }
      }
    }
  }
}
