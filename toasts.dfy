/**
  The toast notifications of the current front end: a list of toasts that
  `showToast` appends to, that closing or the autohide timer removes from by id,
  that hovering pauses and leaving resumes; and the grouping of the list into one
  container per screen position, anchored at the top or the bottom of the page.
  Timers are opaque handles handed in by the caller (`setTimeout`'s result).
 */
module Toasts {
  import opened Wrappers
  import opened Text
  import opened Seqs
  import opened JsValues

  datatype Variant = Dark | Success | Danger | Secondary

  /** react-bootstrap's `ToastPosition`. */
  datatype Position =
    | TopStart | TopCenter | TopEnd
    | MiddleStart | MiddleCenter | MiddleEnd
    | BottomStart | BottomCenter | BottomEnd
  {
    /** The position's string value. */
    function Name(): string {
      match this
      case TopStart => "top-start"
      case TopCenter => "top-center"
      case TopEnd => "top-end"
      case MiddleStart => "middle-start"
      case MiddleCenter => "middle-center"
      case MiddleEnd => "middle-end"
      case BottomStart => "bottom-start"
      case BottomCenter => "bottom-center"
      case BottomEnd => "bottom-end"
    }
  }

  /** A pending `setTimeout` whose callback removes the toast. */
  datatype Timer = Timer(handle: nat)

  /**
    A toast. Its `message` is declared a string, but the value `showToast` is given
    is stored as it is, so it is held here as a JavaScript value.
   */
  datatype ToastItem = ToastItem(
    id: string,
    message: JsValue,
    variant: Variant,
    position: Position,
    autohide: bool,
    timeoutRef: Option<Timer>)

  /** Delay before an autohiding toast is removed, in milliseconds. */
  const AutohideDelay := 3000

  /** The toast `showToast` creates: defaults `'dark'` and `'top-center'`, autohiding, with its removal timer. */
  function NewToast(id: string, message: JsValue, variant: Option<Variant>, position: Option<Position>, timer: Timer): (t: ToastItem)
    ensures t.id == id && t.message == message && t.autohide && t.timeoutRef == Some(timer)
    ensures t.variant == (if variant.Some? then variant.value else Dark)
    ensures t.position == (if position.Some? then position.value else TopCenter)
  {
    ToastItem(id, message,
      if variant.Some? then variant.value else Dark,
      if position.Some? then position.value else TopCenter,
      true, Some(timer))
  }

  /** The updater of `removeToast`: every toast with the id is gone, the others stay in order. */
  function WithoutToast(toasts: seq<ToastItem>, id: string): (r: seq<ToastItem>)
    ensures forall i | 0 <= i < |r| :: r[i].id != id
    ensures forall t :: multiset(r)[t] == if t.id == id then 0 else multiset(toasts)[t]
  {
    FilterMultiset(toasts, (t: ToastItem) => t.id != id);
    Filter(toasts, (t: ToastItem) => t.id != id)
  }

  /** Removing an id no toast carries changes nothing (a timer firing after the toast was closed). */
  lemma RemoveAbsent(toasts: seq<ToastItem>, id: string)
    requires forall i | 0 <= i < |toasts| :: toasts[i].id != id
    ensures WithoutToast(toasts, id) == toasts
  {
    FilterKeepsAll(toasts, (t: ToastItem) => t.id != id);
  }

  /** Removing the same id twice is removing it once. */
  lemma RemoveTwice(toasts: seq<ToastItem>, id: string)
    ensures WithoutToast(WithoutToast(toasts, id), id) == WithoutToast(toasts, id)
  {
    RemoveAbsent(WithoutToast(toasts, id), id);
  }

  /** Removing a toast that was just shown leaves the list as it was before (when no earlier toast had that id). */
  lemma ShowThenRemove(toasts: seq<ToastItem>, t: ToastItem)
    requires forall i | 0 <= i < |toasts| :: toasts[i].id != t.id
    ensures WithoutToast(toasts + [t], t.id) == toasts
  {
    var keep := (x: ToastItem) => x.id != t.id;
    FilterConcat(toasts, [t], keep);
    FilterKeepsAll(toasts, keep);
    assert Filter([t], keep) == [];
  }

  /** The updater of `handleToastMouseEnter`: the toasts with the id stop autohiding and lose their timer. */
  function Paused(toasts: seq<ToastItem>, id: string): (r: seq<ToastItem>)
    ensures |r| == |toasts|
    ensures forall i | 0 <= i < |r| ::
      (r[i].id == toasts[i].id && r[i].message == toasts[i].message
       && r[i].variant == toasts[i].variant && r[i].position == toasts[i].position)
    ensures forall i | 0 <= i < |r| :: toasts[i].id == id ==> !r[i].autohide && r[i].timeoutRef.None?
    ensures forall i | 0 <= i < |r| :: toasts[i].id != id ==> r[i] == toasts[i]
  {
    seq(|toasts|, i requires 0 <= i < |toasts| =>
      if toasts[i].id == id then toasts[i].(autohide := false, timeoutRef := None) else toasts[i])
  }

  /** The updater of `handleToastMouseLeave`: the toasts with the id autohide again, with the new timer. */
  function Resumed(toasts: seq<ToastItem>, id: string, timer: Timer): (r: seq<ToastItem>)
    ensures |r| == |toasts|
    ensures forall i | 0 <= i < |r| ::
      (r[i].id == toasts[i].id && r[i].message == toasts[i].message
       && r[i].variant == toasts[i].variant && r[i].position == toasts[i].position)
    ensures forall i | 0 <= i < |r| :: toasts[i].id == id ==> r[i].autohide && r[i].timeoutRef == Some(timer)
    ensures forall i | 0 <= i < |r| :: toasts[i].id != id ==> r[i] == toasts[i]
  {
    seq(|toasts|, i requires 0 <= i < |toasts| =>
      if toasts[i].id == id then toasts[i].(autohide := true, timeoutRef := Some(timer)) else toasts[i])
  }

  /** Hovering and leaving leaves the toasts as a single leave would: the pause is fully undone. */
  lemma PauseThenResume(toasts: seq<ToastItem>, id: string, timer: Timer)
    ensures Resumed(Paused(toasts, id), id, timer) == Resumed(toasts, id, timer)
  {
  }

  /** A toast shown with its removal timer is, after hover and leave, the same toast with the new timer. */
  lemma ShownToastAfterHover(id: string, message: JsValue, variant: Option<Variant>, position: Option<Position>, first: Timer, second: Timer)
    ensures Resumed(Paused([NewToast(id, message, variant, position, first)], id), id, second)
      == [NewToast(id, message, variant, position, second)]
  {
  }

  // ---------------------------------------------------------------- grouping

  /** The toasts at `pos`, in list order. */
  function AtPosition(toasts: seq<ToastItem>, pos: Position): seq<ToastItem> {
    Filter(toasts, (t: ToastItem) => t.position == pos)
  }

  /** Appending one toast adds it to the end of its own position's group and to no other. */
  lemma AtPositionSnoc(toasts: seq<ToastItem>, t: ToastItem, pos: Position)
    ensures AtPosition(toasts + [t], pos) == AtPosition(toasts, pos) + (if t.position == pos then [t] else [])
  {
    FilterConcat(toasts, [t], (x: ToastItem) => x.position == pos);
    assert [t][1..] == [];
  }

  /** The positions of `toasts` in order of first appearance, each once: the order of a JavaScript object's keys. */
  function FirstSeen(toasts: seq<ToastItem>): seq<Position> {
    if toasts == [] then []
    else
      var earlier := FirstSeen(toasts[..|toasts| - 1]);
      var pos := toasts[|toasts| - 1].position;
      if pos in earlier then earlier else earlier + [pos]
  }

  predicate Distinct(ps: seq<Position>) {
    forall i, j | 0 <= i < j < |ps| :: ps[i] != ps[j]
  }

  /** A position is listed exactly when some toast is at it, and no position is listed twice. */
  lemma {:induction false} FirstSeenExact(toasts: seq<ToastItem>)
    ensures Distinct(FirstSeen(toasts))
    ensures forall pos :: pos in FirstSeen(toasts) <==> exists i | 0 <= i < |toasts| :: toasts[i].position == pos
  {
    if toasts != [] {
      var init := toasts[..|toasts| - 1];
      FirstSeenExact(init);
      assert forall i | 0 <= i < |init| :: init[i] == toasts[i];
    }
  }

  /** Appending a toast lists its position at the end, unless it was already listed. */
  lemma FirstSeenSnoc(toasts: seq<ToastItem>, t: ToastItem)
    ensures FirstSeen(toasts + [t]) == if t.position in FirstSeen(toasts) then FirstSeen(toasts) else FirstSeen(toasts) + [t.position]
  {
    assert (toasts + [t])[..|toasts|] == toasts;
  }

  /** A position not yet listed has no toasts. */
  lemma UnlistedIsEmpty(toasts: seq<ToastItem>, pos: Position)
    requires pos !in FirstSeen(toasts)
    ensures AtPosition(toasts, pos) == []
  {
    FirstSeenExact(toasts);
    FilterMultiset(toasts, (t: ToastItem) => t.position == pos);
  }

  /** How many of `ps` equal `pos`. */
  function Occurrences(ps: seq<Position>, pos: Position): nat {
    if ps == [] then 0 else (if ps[0] == pos then 1 else 0) + Occurrences(ps[1..], pos)
  }

  /** A position in a list without repeats occurs there exactly once. */
  lemma {:induction false} OccursOnce(ps: seq<Position>, pos: Position)
    requires Distinct(ps) && pos in ps
    ensures Occurrences(ps, pos) == 1
  {
    if ps[0] == pos {
      OccursNever(ps[1..], pos);
    } else {
      OccursOnce(ps[1..], pos);
    }
  }

  lemma {:induction false} OccursNever(ps: seq<Position>, pos: Position)
    requires pos !in ps
    ensures Occurrences(ps, pos) == 0
  {
    if ps != [] {
      OccursNever(ps[1..], pos);
    }
  }

  /** The total size of the groups of `ps`. */
  function GroupSizes(toasts: seq<ToastItem>, ps: seq<Position>): nat {
    if ps == [] then 0 else |AtPosition(toasts, ps[0])| + GroupSizes(toasts, ps[1..])
  }

  /** Putting a toast in front adds one to its own group and nothing to the others. */
  lemma {:induction false} GroupSizesCons(t: ToastItem, rest: seq<ToastItem>, ps: seq<Position>)
    ensures GroupSizes([t] + rest, ps) == Occurrences(ps, t.position) + GroupSizes(rest, ps)
  {
    if ps != [] {
      GroupSizesCons(t, rest, ps[1..]);
      FilterConcat([t], rest, (x: ToastItem) => x.position == ps[0]);
    }
  }

  /** Groups over positions that include every toast's position, each once, hold all the toasts between them. */
  lemma {:induction false} GroupSizesTotal(toasts: seq<ToastItem>, ps: seq<Position>)
    requires Distinct(ps)
    requires forall i | 0 <= i < |toasts| :: toasts[i].position in ps
    ensures GroupSizes(toasts, ps) == |toasts|
  {
    if toasts == [] {
      GroupSizesEmpty(ps);
    } else {
      var rest := toasts[1..];
      assert toasts == [toasts[0]] + rest;
      GroupSizesTotal(rest, ps);
      GroupSizesCons(toasts[0], rest, ps);
      OccursOnce(ps, toasts[0].position);
    }
  }

  lemma {:induction false} GroupSizesEmpty(ps: seq<Position>)
    ensures GroupSizes([], ps) == 0
  {
    if ps != [] {
      GroupSizesEmpty(ps[1..]);
    }
  }

  datatype Group = Group(position: Position, items: seq<ToastItem>)

  function GroupPositions(groups: seq<Group>): (ps: seq<Position>)
    ensures |ps| == |groups| && forall j | 0 <= j < |groups| :: ps[j] == groups[j].position
  {
    seq(|groups|, j requires 0 <= j < |groups| => groups[j].position)
  }

  /**
    `toastsByPosition` followed by `Object.entries`: the reduce pushes each toast onto
    the array of its position, creating the array the first time the position is
    seen. The result lists the positions in order of first appearance, each with all
    of its toasts in list order.
   */
  method ToastsByPosition(toasts: seq<ToastItem>) returns (entries: seq<Group>)
    ensures GroupPositions(entries) == FirstSeen(toasts)
    ensures forall j | 0 <= j < |entries| :: entries[j].items == AtPosition(toasts, entries[j].position)
  {
    var acc: map<Position, seq<ToastItem>> := map[];
    var keys: seq<Position> := [];
    for i := 0 to |toasts|
      invariant keys == FirstSeen(toasts[..i])
      invariant forall pos :: pos in acc <==> pos in keys
      invariant forall pos | pos in acc :: acc[pos] == AtPosition(toasts[..i], pos)
    {
      var toast := toasts[i];
      ghost var seen := toasts[..i];
      assert toasts[..i + 1] == seen + [toast];
      FirstSeenSnoc(seen, toast);
      if toast.position !in acc {
        UnlistedIsEmpty(seen, toast.position);
        acc := acc[toast.position := []];
        keys := keys + [toast.position];
      }
      acc := acc[toast.position := acc[toast.position] + [toast]];
      forall pos | pos in acc
        ensures acc[pos] == AtPosition(seen + [toast], pos)
      {
        AtPositionSnoc(seen, toast, pos);
      }
    }
    assert toasts[..|toasts|] == toasts;
    entries := seq(|keys|, j requires 0 <= j < |keys| => Group(keys[j], acc[keys[j]]));
  }

  /**
    The grouping loses and duplicates nothing: every toast lands in exactly the group
    of its position, and the group sizes add up to the number of toasts.
   */
  lemma GroupingPartitions(toasts: seq<ToastItem>)
    ensures Distinct(FirstSeen(toasts))
    ensures forall i | 0 <= i < |toasts| :: toasts[i].position in FirstSeen(toasts)
    ensures GroupSizes(toasts, FirstSeen(toasts)) == |toasts|
  {
    FirstSeenExact(toasts);
    GroupSizesTotal(toasts, FirstSeen(toasts));
  }

  // ---------------------------------------------------------------- container style

  datatype Edge = Top | Bottom

  /** `toastContainerStyle`: fixed, centred horizontally, 1rem from the top or the bottom edge. */
  datatype ContainerStyle = ContainerStyle(zIndex: int, cssPosition: string, left: string, transform: string, edge: Edge, offset: string)

  function ToastContainerStyle(position: Position): ContainerStyle {
    ContainerStyle(1500, "fixed", "50%", "translateX(-50%)",
      if Contains(position.Name(), "bottom") then Bottom else Top, "1rem")
  }

  /** The container sits at the bottom exactly for the three bottom positions. */
  lemma AnchoredAtBottomIff(position: Position)
    ensures ToastContainerStyle(position).edge == Bottom <==> position in {BottomStart, BottomCenter, BottomEnd}
  {
    var name := position.Name();
    if position in {BottomStart, BottomCenter, BottomEnd} {
      assert OccursAt(name, "bottom", 0);
    } else if Contains(name, "bottom") {
      ContainsFirstChar(name, "bottom");
    }
  }

  /** The list of toasts of `ToastProvider`. */
  class ToastQueue {
    var toasts: seq<ToastItem>

    constructor ()
      ensures toasts == []
    {
      toasts := [];
    }

    /**
      `showToast(message, variant?, position?)`, with `id` standing for
      `Date.now().toString()` and `timer` for the timer that will remove it: exactly
      one toast is appended at the end.
     */
    method ShowToast(message: JsValue, variant: Option<Variant>, position: Option<Position>, id: string, timer: Timer)
      modifies this
      ensures toasts == old(toasts) + [NewToast(id, message, variant, position, timer)]
    {
      var newToast := NewToast(id, message, variant, position, timer);
      toasts := toasts + [newToast];
    }

    /** `removeToast(id)`, from the close button or the timer. */
    method RemoveToast(id: string)
      modifies this
      ensures toasts == WithoutToast(old(toasts), id)
    {
      toasts := WithoutToast(toasts, id);
    }

    /** `handleToastMouseEnter(id)`: the timer is cleared and autohide switched off. */
    method MouseEnter(id: string)
      modifies this
      ensures toasts == Paused(old(toasts), id)
    {
      toasts := Paused(toasts, id);
    }

    /** `handleToastMouseLeave(id)`, with `timer` the fresh removal timer. */
    method MouseLeave(id: string, timer: Timer)
      modifies this
      ensures toasts == Resumed(old(toasts), id, timer)
    {
      toasts := Resumed(toasts, id, timer);
    }
  }
}
