/** Go error trees and the decision whether a failed publish may be retried. */
module Errors {
  import opened Prelude

  /**
   An error value with what `Unwrap` exposes. `Plain` and `PayloadTooLarge` expose nothing, `Wrapped` is `fmt.Errorf`
   with one `%w`, `Joined` exposes several causes, and `Verdict` stands for any other implementation of
   `RetryableError`.
   */
  datatype Error =
    | Plain(text: string)
    | PayloadTooLarge
    | Wrapped(text: string, inner: Error)
    | Joined(causes: seq<Error>)
    | Permanent(cause: Option<Error>)
    | Transient(cause: Option<Error>)
    | PublishError(outboxId: string, eventType: string, cause: Option<Error>)
    | Verdict(text: string, retryable: bool, cause: Option<Error>)
  {
    /** The node implements `RetryableError`. */
    predicate HasVerdict() { Permanent? || Transient? || PublishError? || Verdict? }
  }

  /** `errors.As(err, &retryable)`: the first node with a verdict, depth first, parents before children. */
  function FindVerdict(e: Error): (r: Option<Error>)
    ensures r.Some? ==> r.value.HasVerdict() && (r.value == e || r.value < e)
    decreases e, 0
  {
    if e.HasVerdict() then Some(e)
    else match e
      case Wrapped(_, inner) => FindVerdict(inner)
      case Joined(causes) => FindFirst(e, causes)
      case _ => None
  }

  function FindFirst(ghost parent: Error, es: seq<Error>): (r: Option<Error>)
    requires forall i :: 0 <= i < |es| ==> es[i] < parent
    ensures r.Some? ==> r.value.HasVerdict() && r.value < parent
    decreases parent, 0, |es|
  {
    if es == [] then None
    else
      var r := FindVerdict(es[0]);
      if r.Some? then r else FindFirst(parent, es[1..])
  }

  function IsRetryable(err: Option<Error>): (r: bool)
    decreases err
  {
    match err
    case None => false
    case Some(e) =>
      match FindVerdict(e)
      case None => true
      case Some(Permanent(_)) => false
      case Some(Transient(_)) => true
      case Some(Verdict(_, retryable, _)) => retryable
      case Some(PublishError(_, _, cause)) => IsRetryable(cause)
  }

  // ---------- reference: the tree flattened in pre-order ----------

  function Children(e: Error): (es: seq<Error>)
    ensures forall i :: 0 <= i < |es| ==> es[i] < e
  {
    match e
    case Plain(_) => []
    case PayloadTooLarge => []
    case Wrapped(_, inner) => [inner]
    case Joined(causes) => causes
    case Permanent(cause) => if cause.Some? then [cause.value] else []
    case Transient(cause) => if cause.Some? then [cause.value] else []
    case PublishError(_, _, cause) => if cause.Some? then [cause.value] else []
    case Verdict(_, _, cause) => if cause.Some? then [cause.value] else []
  }

  function Preorder(e: Error): seq<Error>
    decreases e, 1
  {
    [e] + PreorderAll(e, Children(e))
  }

  function PreorderAll(ghost parent: Error, es: seq<Error>): seq<Error>
    requires forall i :: 0 <= i < |es| ==> es[i] < parent
    decreases parent, 0, |es|
  {
    if es == [] then [] else Preorder(es[0]) + PreorderAll(parent, es[1..])
  }

  function FirstVerdict(nodes: seq<Error>): Option<Error>
  {
    if nodes == [] then None
    else if nodes[0].HasVerdict() then Some(nodes[0])
    else FirstVerdict(nodes[1..])
  }

  lemma {:induction false} FirstVerdictOfConcat(a: seq<Error>, b: seq<Error>)
    ensures FirstVerdict(a + b) == if FirstVerdict(a).Some? then FirstVerdict(a) else FirstVerdict(b)
  {
    if a == [] {
      assert a + b == b;
    } else {
      assert (a + b)[1..] == a[1..] + b;
      FirstVerdictOfConcat(a[1..], b);
    }
  }

  lemma {:induction false} SearchIsPreorder(e: Error)
    ensures FindVerdict(e) == FirstVerdict(Preorder(e))
    decreases e, 1
  {
    if !e.HasVerdict() {
      SearchAllIsPreorder(e, Children(e));
      FirstVerdictOfConcat([e], PreorderAll(e, Children(e)));
      if e.Wrapped? { SearchIsPreorder(e.inner); }
    }
  }

  lemma {:induction false} SearchAllIsPreorder(parent: Error, es: seq<Error>)
    requires forall i :: 0 <= i < |es| ==> es[i] < parent
    ensures FindFirst(parent, es) == FirstVerdict(PreorderAll(parent, es))
    decreases parent, 0, |es|
  {
    if es == [] {
    } else {
      SearchIsPreorder(es[0]);
      SearchAllIsPreorder(parent, es[1..]);
      FirstVerdictOfConcat(Preorder(es[0]), PreorderAll(parent, es[1..]));
    }
  }

  /** The decision is the verdict of the first node with one in pre-order; without any, errors are retryable. */
  lemma {:induction false} RetryableIsFirstVerdict(e: Error)
    ensures IsRetryable(Some(e)) ==
              match FirstVerdict(Preorder(e))
              case None => true
              case Some(n) => n.Transient? || (n.Verdict? && n.retryable) || (n.PublishError? && IsRetryable(n.cause))
  {
    SearchIsPreorder(e);
  }

  // ---------- wrapping ----------

  datatype Layer = Text(text: string) | Publishing(outboxId: string, eventType: string)

  function Wrap(layers: seq<Layer>, e: Error): Error
  {
    if layers == [] then e
    else
      var inner := Wrap(layers[1..], e);
      match layers[0]
      case Text(text) => Wrapped(text, inner)
      case Publishing(id, eventType) => PublishError(id, eventType, Some(inner))
  }

  /** No depth of plain or PublishError wrapping changes the decision. */
  lemma {:induction false} WrappingKeepsVerdict(layers: seq<Layer>, e: Error)
    ensures IsRetryable(Some(Wrap(layers, e))) == IsRetryable(Some(e))
  {
    if layers == [] {
    } else {
      WrappingKeepsVerdict(layers[1..], e);
    }
  }

  /** A PublishError without a cause is not retried, unlike an ordinary error without a cause. */
  lemma {:induction false} EmptyPublishErrorIsFinal(id: string, eventType: string)
    ensures !IsRetryable(Some(PublishError(id, eventType, None)))
    ensures forall text :: IsRetryable(Some(Plain(text)))
  {
  }
}
