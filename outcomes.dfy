/** Java's `null` and the exceptions the services let escape, as values. */
module Outcomes {

  /** A Java reference that may be `null` (None). */
  datatype Option<+T> = None | Some(value: T)

  /** The exceptions that can leave a service method. */
  datatype JavaException =
    | NoSuchElement          // java.util.NoSuchElementException, from Optional.get on an empty Optional
    | NullPointer            // java.lang.NullPointerException, from dereferencing a null list or id
    | NewsNotFound           // NewsNotFoundException
    | NewsSourceNotFound     // NewsSourceNotFoundException

  /** What a Java call did: returned a value, or threw. */
  datatype Outcome<+T> = Returned(value: T) | Threw(exc: JavaException)

  /** A call whose returned reference is never null, seen by a caller that checks for null anyway. */
  function Nullable<T>(o: Outcome<T>): (r: Outcome<Option<T>>)
    ensures r.Threw? <==> o.Threw?
    ensures o.Threw? ==> r.exc == o.exc
    ensures o.Returned? ==> r.value == Some(o.value)
  {
    match o
    case Returned(v) => Returned(Some(v))
    case Threw(e) => Threw(e)
  }
}
