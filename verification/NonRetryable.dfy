/** Which publish errors are poison pills: errors.Is and errors.As over the wrapping structure of an error. */
module NonRetryable {

  /**
   * An error value: the sentinel, the marking type (whose inner error, or the pointer itself, may be nil), %w wrapping,
   * errors.Join, a type with its own Is and As methods (which say that it is the sentinel, or can be had as the marking
   * type) and an Error method that may panic, or anything else.
   */
  datatype Err =
    | Sentinel
    | MarkedNil
    | NilMarked
    | Marked(inner: Err)
    | Wrapped(inner: Err)
    | Joined(parts: seq<Err>)
    | Own(saysIs: bool, saysAs: bool, prints: bool, parts: seq<Err>)
    | Opaque(text: string)

  /** ErrPoisonPill wraps ErrNonRetryable. */
  const POISON_PILL: Err := Wrapped(Sentinel)

  datatype MaybeErr = NoErr | SomeErr(err: Err)

  /** errors.Is(e, ErrNonRetryable): an error matches by being the sentinel or by the marking type's own Is method. */
  predicate Is(e: Err) {
    match e
    case Sentinel => true
    case MarkedNil => true
    case NilMarked => true
    case Marked(_) => true
    case Wrapped(inner) => Is(inner)
    case Joined(parts) => exists i | 0 <= i < |parts| :: Is(parts[i])
    case Own(saysIs, _, _, parts) => saysIs || exists i | 0 <= i < |parts| :: Is(parts[i])
    case Opaque(_) => false
  }

  /** errors.As(e, **NonRetryableError): some error in the tree has the marking type. */
  predicate As(e: Err) {
    match e
    case MarkedNil => true
    case NilMarked => true
    case Marked(_) => true
    case Wrapped(inner) => As(inner)
    case Joined(parts) => exists i | 0 <= i < |parts| :: As(parts[i])
    case Own(_, saysAs, _, parts) => saysAs || exists i | 0 <= i < |parts| :: As(parts[i])
    case _ => false
  }

  predicate IsNonRetryable(e: MaybeErr) {
    e.SomeErr? && (Is(e.err) || As(e.err))
  }

  function MarkNonRetryable(e: MaybeErr): MaybeErr {
    if e.NoErr? then NoErr else SomeErr(Marked(e.err))
  }

  /** x is e itself or is reached from it by unwrapping. */
  ghost predicate Occurs(x: Err, e: Err) {
    x == e ||
    match e
    case Marked(inner) => Occurs(x, inner)
    case Wrapped(inner) => Occurs(x, inner)
    case Joined(parts) => exists i | 0 <= i < |parts| :: Occurs(x, parts[i])
    case Own(_, _, _, parts) => exists i | 0 <= i < |parts| :: Occurs(x, parts[i])
    case _ => false
  }

  ghost predicate Permanent(x: Err) {
    x.Sentinel? || x.MarkedNil? || x.NilMarked? || x.Marked? || (x.Own? && (x.saysIs || x.saysAs))
  }

  /**
   * An error is non-retryable exactly when something in its tree is the sentinel, is marked, or says it is one of them.
   */
  lemma {:induction false} NonRetryableExactly(e: Err)
    ensures IsNonRetryable(SomeErr(e)) <==> exists x :: Occurs(x, e) && Permanent(x)
    decreases e, 1
  {
    if Permanent(e) {
      assert Occurs(e, e);
    } else {
      match e
      case Wrapped(inner) => NonRetryableExactly(inner);
      case Joined(parts) => SomePart(e, parts);
      case Own(_, _, _, parts) => SomePart(e, parts);
      case Opaque(_) =>
    }
  }

  /** An error made of others, and nothing by itself, is non-retryable exactly when one of them is. */
  lemma {:induction false} SomePart(e: Err, parts: seq<Err>)
    requires (e.Joined? || (e.Own? && !Permanent(e))) && parts == e.parts
    ensures IsNonRetryable(SomeErr(e)) <==> exists x :: Occurs(x, e) && Permanent(x)
    decreases e, 0
  {
    forall i | 0 <= i < |parts|
      ensures Is(parts[i]) || As(parts[i]) <==> exists x :: Occurs(x, parts[i]) && Permanent(x)
    {
      NonRetryableExactly(parts[i]);
      assert IsNonRetryable(SomeErr(parts[i])) <==> Is(parts[i]) || As(parts[i]);
    }
    if IsNonRetryable(SomeErr(e)) {
      var i :| 0 <= i < |parts| && (Is(parts[i]) || As(parts[i]));
      var x :| Occurs(x, parts[i]) && Permanent(x);
      assert Occurs(x, e);
    }
    if x :| Occurs(x, e) && Permanent(x) {
      var i :| 0 <= i < |parts| && Occurs(x, parts[i]);
      assert Is(parts[i]) || As(parts[i]);
    }
  }

  lemma {:induction false} OccursWithin(x: Err, m: Err, e: Err)
    requires Occurs(x, m) && Occurs(m, e)
    ensures Occurs(x, e)
    decreases e
  {
    if m != e {
      if e.Marked? || e.Wrapped? {
        OccursWithin(x, m, e.inner);
      } else if e.Joined? || e.Own? {
        var i :| 0 <= i < |e.parts| && Occurs(m, e.parts[i]);
        OccursWithin(x, m, e.parts[i]);
      }
    }
  }

  /**
   * A marked error, and a poison pill unmarked, make every error permanent that is ever made from them, however deep
   * they are wrapped, joined and marked in it; marking nil gives nil.
   */
  lemma {:induction false} MarkedStays(e: Err, m: Err, x: Err)
    requires m == POISON_PILL || m == MarkNonRetryable(SomeErr(e)).err
    requires Occurs(m, x)
    ensures IsNonRetryable(SomeErr(x))
    ensures IsNonRetryable(SomeErr(m)) && !IsNonRetryable(MarkNonRetryable(NoErr))
  {
    assert Occurs(m, m);
    NonRetryableExactly(m);
    var y :| Occurs(y, m) && Permanent(y);
    OccursWithin(y, m, x);
    NonRetryableExactly(x);
  }

  // ---------------------------------------------------------------------------------------------------------
  // Errors that cannot be printed
  // ---------------------------------------------------------------------------------------------------------

  /**
   * Error() returns. The marking type and errors.Join print what they hold when they are asked; %w has printed it when
   * the error was made, panics caught. A nil marking pointer has nothing to read the inner error from.
   */
  predicate Prints(e: Err) {
    match e
    case NilMarked => false
    case Marked(inner) => Prints(inner)
    case Joined(parts) => forall i | 0 <= i < |parts| :: Prints(parts[i])
    case Own(_, _, prints, _) => prints
    case _ => true
  }

  /** x is e itself or one of those e prints: marked or joined in it, and not behind a %w. */
  ghost predicate Printed(x: Err, e: Err) {
    x == e ||
    match e
    case Marked(inner) => Printed(x, inner)
    case Joined(parts) => exists i | 0 <= i < |parts| :: Printed(x, parts[i])
    case _ => false
  }

  ghost predicate Unprintable(x: Err) {
    x.NilMarked? || (x.Own? && !x.prints)
  }

  /** An error can be printed exactly when none of those it prints is a nil marking pointer or a type that panics. */
  lemma {:induction false} PrintsExactly(e: Err)
    ensures Prints(e) <==> !exists x :: Printed(x, e) && Unprintable(x)
    decreases e
  {
    if Unprintable(e) {
      assert Printed(e, e);
    } else if e.Marked? {
      PrintsExactly(e.inner);
    } else if e.Joined? {
      forall i | 0 <= i < |e.parts|
        ensures Prints(e.parts[i]) <==> !exists x :: Printed(x, e.parts[i]) && Unprintable(x)
      {
        PrintsExactly(e.parts[i]);
      }
      if x :| Printed(x, e) && Unprintable(x) {
        var i :| 0 <= i < |e.parts| && Printed(x, e.parts[i]);
        assert !Prints(e.parts[i]);
      }
      if i :| 0 <= i < |e.parts| && !Prints(e.parts[i]) {
        var x :| Printed(x, e.parts[i]) && Unprintable(x);
        assert Printed(x, e);
      }
    }
  }
}
