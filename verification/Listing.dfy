/**
 The file manager's listing as a machine: the user moves about, presses "show more", and answers come back late, out
 of order or not at all. `run` numbers the listing in force; an answer knows the run it was asked in.
 */
module Listing {
  import opened Wrappers
  import opened Sequences
  import opened ListingOrder

  /** Everything the listing effect depends on: changing any of it starts a new listing. */
  datatype Place = Place(
    parent: Option<string>, trashed: bool, term: string, share: Option<string>,
    order: SortKey, direction: Option<Direction>, reload: nat)

  /** A request on its way, with what its closure remembers. A first page has no cursor. */
  datatype Asked = Asked(run: nat, place: Place, from: Option<string>, cancelled: bool)

  datatype Reply = Got(page: Page) | Failed | Unauthorised

  datatype Event =
    | Move(to: Place)
    | PressMore
    | Answer(index: nat, reply: Reply)

  /** `taken` is a history variable: the pages accepted in the listing in force. */
  datatype Pane = Pane(
    run: nat, place: Place, rows: Option<seq<Entry>>, failed: bool, more: bool, cursor: Option<string>,
    paging: bool, flight: seq<Asked>, taken: seq<Page>)

  /** The first render: nothing shown yet, the first page asked for. */
  function Opened(place: Place): Pane {
    Pane(1, place, None, false, false, None, false, [Asked(1, place, None, false)], [])
  }

  /** The effect's clean-up: a first page on its way will be dropped when it comes. */
  function Cancelled(flight: seq<Asked>): seq<Asked> {
    seq(|flight|, i requires 0 <= i < |flight| =>
      if flight[i].from.None? then flight[i].(cancelled := true) else flight[i])
  }

  function Without<T>(xs: seq<T>, i: nat): seq<T>
    requires i < |xs|
  {
    xs[..i] + xs[i + 1..]
  }

  function Arrived(p: Pane): seq<Entry> {
    if p.rows.Some? then p.rows.value else []
  }

  function TakeFirst(p: Pane, asked: Asked, reply: Reply, collate: Collation): Pane {
    if asked.cancelled then p else
    match reply
    case Unauthorised => p
    case Failed => p.(failed := true, more := false)
    case Got(page) =>
      p.(rows := Some(FirstDrawn(page.items, asked.place.order, collate)),
         more := page.hasMore, cursor := page.nextCursor, taken := [page])
  }

  function TakeMore(p: Pane, asked: Asked, reply: Reply, collate: Collation): Pane {
    var idle := p.(paging := false);
    if asked.run != p.run || !reply.Got? then idle
    else
      var page := reply.page;
      idle.(rows := Some(Merged(Arrived(p), page.items, asked.place.order, asked.place.direction, collate)),
            more := page.hasMore, cursor := page.nextCursor, taken := p.taken + [page])
  }

  function Step(p: Pane, e: Event, collate: Collation): Pane {
    match e
    case Move(to) =>
      Pane(p.run + 1, to, None, false, p.more, None, p.paging,
           Cancelled(p.flight) + [Asked(p.run + 1, to, None, false)], [])
    case PressMore =>
      if p.cursor.None? || p.paging then p
      else p.(paging := true, flight := p.flight + [Asked(p.run, p.place, p.cursor, false)])
    case Answer(i, reply) =>
      if i >= |p.flight| then p
      else
        var asked := p.flight[i];
        var rest := p.(flight := Without(p.flight, i));
        if asked.from.None? then TakeFirst(rest, asked, reply, collate) else TakeMore(rest, asked, reply, collate)
  }

  function Play(p: Pane, events: seq<Event>, collate: Collation): Pane
    decreases |events|
  {
    if events == [] then p else Play(Step(p, events[0], collate), events[1..], collate)
  }

  // ---- what every step keeps -------------------------------------------------------------------

  /** Every page taken follows the one before it by the cursor that one left; the rows are those pages, drawn. */
  ghost predicate ShowsTaken(p: Pane, collate: Collation) {
    && (p.rows.None? <==> p.taken == [])
    && (p.taken != [] ==>
          && p.rows == Some(Screen(ItemsOf(p.taken), p.place.order, p.place.direction, collate))
          && p.more == p.taken[|p.taken| - 1].hasMore)
    && p.cursor == (if p.taken == [] then None else p.taken[|p.taken| - 1].nextCursor)
    && (p.failed ==> p.taken == [])
  }

  /** What one request on its way may be. */
  ghost predicate Timely(p: Pane, a: Asked) {
    && a.run <= p.run
    && (a.run == p.run ==> a.place == p.place)
    && (a.from.None? ==> (a.cancelled <==> a.run < p.run))
    && (a.run == p.run && a.from.None? ==> p.taken == [] && !p.failed)
    && (a.run == p.run && a.from.Some? ==> p.taken != [] && a.from == p.cursor)
    && (a.from.Some? ==> p.paging)
  }

  /** Two requests on their way are never both continuations, nor both the first page of one run. */
  predicate Apart(a: Asked, b: Asked) {
    !(a.from.Some? && b.from.Some?) && !(a.from.None? && b.from.None? && a.run == b.run)
  }

  ghost predicate InOrder(p: Pane) {
    && (forall i :: 0 <= i < |p.flight| ==> Timely(p, p.flight[i]))
    && (forall i, j :: 0 <= i < j < |p.flight| ==> Apart(p.flight[i], p.flight[j]))
    && (p.paging ==> exists i :: 0 <= i < |p.flight| && p.flight[i].from.Some?)
  }

  lemma ScreenGrows(pages: seq<Page>, page: Page, key: SortKey, direction: Option<Direction>, collate: Collation)
    ensures Screen(ItemsOf(pages + [page]), key, direction, collate)
            == if pages == [] then FirstDrawn(page.items, key, collate)
               else Merged(Screen(ItemsOf(pages), key, direction, collate), page.items, key, direction, collate)
  {
    hide Merged, FirstDrawn;
    var all := ItemsOf(pages + [page]);
    assert all[..|pages|] == ItemsOf(pages) && all[|pages|] == page.items;
  }

  lemma StepShowsTaken(p: Pane, e: Event, collate: Collation)
    requires ShowsTaken(p, collate) && InOrder(p)
    ensures ShowsTaken(Step(p, e, collate), collate)
  {
    hide Merged, FirstDrawn, Screen, ItemsOf;
    if e.Answer? && e.index < |p.flight| {
      assert Timely(p, p.flight[e.index]);
      hide InOrder, ShowsTaken;
      AnswerShowsTaken(p, e.index, e.reply, collate);
    }
  }

  lemma AnswerShowsTaken(p: Pane, i: nat, reply: Reply, collate: Collation)
    requires ShowsTaken(p, collate) && i < |p.flight| && Timely(p, p.flight[i])
    ensures ShowsTaken(Step(p, Answer(i, reply), collate), collate)
  {
    hide Merged, FirstDrawn, Screen, ItemsOf;
    if reply.Got? {
      ScreenGrows([], reply.page, p.place.order, p.place.direction, collate);
      assert [] + [reply.page] == [reply.page];
      ScreenGrows(p.taken, reply.page, p.place.order, p.place.direction, collate);
      assert (p.taken + [reply.page])[|p.taken|] == reply.page;
    }
  }

  lemma WithoutAt<T>(xs: seq<T>, i: nat, k: nat)
    requires i < |xs| && k < |xs| - 1
    ensures Without(xs, i)[k] == if k < i then xs[k] else xs[k + 1]
  {
  }

  lemma StepInOrder(p: Pane, e: Event, collate: Collation)
    requires ShowsTaken(p, collate) && InOrder(p)
    ensures InOrder(Step(p, e, collate))
  {
    hide Merged, FirstDrawn, Screen;
    match e
    case Move(_) =>
      var q := Step(p, e, collate);
      forall k | 0 <= k < |q.flight| ensures Timely(q, q.flight[k]) {
        assert k < |p.flight| ==> Timely(p, p.flight[k]);
      }
      forall k, l | 0 <= k < l < |q.flight| ensures Apart(q.flight[k], q.flight[l]) {
        assert l < |p.flight| ==> Apart(p.flight[k], p.flight[l]);
        assert Timely(p, p.flight[k]);
      }
      if p.paging {
        var i :| 0 <= i < |p.flight| && p.flight[i].from.Some?;
        assert q.flight[i].from.Some?;
      }
    case PressMore =>
      var q := Step(p, e, collate);
      if q != p {
        assert q.flight[|p.flight|].from.Some?;
        forall k | 0 <= k < |q.flight| ensures Timely(q, q.flight[k]) {
          assert k < |p.flight| ==> Timely(p, p.flight[k]);
        }
        forall k, l | 0 <= k < l < |q.flight| ensures Apart(q.flight[k], q.flight[l]) {
          assert l < |p.flight| ==> Apart(p.flight[k], p.flight[l]);
          assert Timely(p, p.flight[k]);
        }
      }
    case Answer(i, reply) =>
      if i < |p.flight| {
        AnswerInOrder(p, i, reply, collate);
      }
  }

  lemma AnswerInOrder(p: Pane, i: nat, reply: Reply, collate: Collation)
    requires InOrder(p) && i < |p.flight|
    ensures InOrder(Step(p, Answer(i, reply), collate))
  {
    hide Merged, FirstDrawn;
    var asked := p.flight[i];
    var q := Step(p, Answer(i, reply), collate);
    assert Timely(p, asked);
    assert q.flight == Without(p.flight, i);
    forall k | 0 <= k < |q.flight| ensures Timely(q, q.flight[k]) {
      var at := if k < i then k else k + 1;
      WithoutAt(p.flight, i, k);
      assert Timely(p, p.flight[at]);
      assert Apart(if k < i then p.flight[at] else asked, if k < i then asked else p.flight[at]);
    }
    forall k, l | 0 <= k < l < |q.flight| ensures Apart(q.flight[k], q.flight[l]) {
      WithoutAt(p.flight, i, k);
      WithoutAt(p.flight, i, l);
      assert Apart(p.flight[if k < i then k else k + 1], p.flight[if l < i then l else l + 1]);
    }
    if q.paging {
      var m :| 0 <= m < |p.flight| && p.flight[m].from.Some?;
      assert m != i;
      var at := if m < i then m else m - 1;
      WithoutAt(p.flight, i, at);
      assert q.flight[at].from.Some?;
    }
  }

  /** Over every sequence of moves, presses and answers, whatever the server says. */
  lemma {:induction false} PlayShowsTaken(p: Pane, events: seq<Event>, collate: Collation)
    requires ShowsTaken(p, collate) && InOrder(p)
    ensures ShowsTaken(Play(p, events, collate), collate) && InOrder(Play(p, events, collate))
    decreases |events|
  {
    hide ShowsTaken, InOrder, Step;
    if events != [] {
      StepShowsTaken(p, events[0], collate);
      StepInOrder(p, events[0], collate);
      PlayShowsTaken(Step(p, events[0], collate), events[1..], collate);
    }
  }

  // ---- against one server ----------------------------------------------------------------------

  type Server = (Place, Option<string>) -> Page

  /** The listing itself: its first `k` pages, each asked for by the cursor the page before left. */
  function FirstPages(serve: Server, place: Place, k: nat): (pages: seq<Page>)
    ensures |pages| == k
  {
    if k == 0 then []
    else
      var before := FirstPages(serve, place, k - 1);
      before + [serve(place, if k == 1 then None else before[k - 2].nextCursor)]
  }

  /** An answer the server really gave to that request; failures and refusals come as they please. */
  predicate Honest(serve: Server, p: Pane, e: Event) {
    e.Answer? && e.index < |p.flight| && e.reply.Got? ==>
      e.reply.page == serve(p.flight[e.index].place, p.flight[e.index].from)
  }

  predicate AllHonest(serve: Server, p: Pane, events: seq<Event>, collate: Collation)
    decreases |events|
  {
    events != [] ==>
      Honest(serve, p, events[0]) && AllHonest(serve, Step(p, events[0], collate), events[1..], collate)
  }

  lemma StepTakesNextPage(serve: Server, p: Pane, e: Event, collate: Collation)
    requires ShowsTaken(p, collate) && InOrder(p) && Honest(serve, p, e)
    requires p.taken == FirstPages(serve, p.place, |p.taken|)
    ensures var q := Step(p, e, collate); q.taken == FirstPages(serve, q.place, |q.taken|)
  {
    hide Merged, FirstDrawn, Screen;
    if e.Answer? && e.index < |p.flight| {
      assert Timely(p, p.flight[e.index]);
    }
  }

  lemma {:induction false} PlayTakesFirstPages(serve: Server, p: Pane, events: seq<Event>, collate: Collation)
    requires ShowsTaken(p, collate) && InOrder(p) && AllHonest(serve, p, events, collate)
    requires p.taken == FirstPages(serve, p.place, |p.taken|)
    ensures var q := Play(p, events, collate); q.taken == FirstPages(serve, q.place, |q.taken|)
    decreases |events|
  {
    hide ShowsTaken, InOrder, Step, Honest, FirstPages;
    if events != [] {
      StepShowsTaken(p, events[0], collate);
      StepInOrder(p, events[0], collate);
      StepTakesNextPage(serve, p, events[0], collate);
      PlayTakesFirstPages(serve, Step(p, events[0], collate), events[1..], collate);
    }
  }

  /**
   At every moment the rows are the first k pages of the listing in force and nothing else, each page once: put in one
   stable order under the name key, one after another under the others. When no cursor is left, that is the listing.
   */
  lemma RowsAreFirstPages(serve: Server, place: Place, events: seq<Event>, collate: Collation)
    requires TotalPreorder(collate) && AllHonest(serve, Opened(place), events, collate)
    ensures var p := Play(Opened(place), events, collate);
            var pages := FirstPages(serve, p.place, |p.taken|);
            && p.taken == pages
            && (p.rows.Some? <==> pages != [])
            && (pages != [] ==> p.cursor == pages[|pages| - 1].nextCursor)
            && (pages != [] && !p.place.order.ByName? ==> p.rows == Some(Concat(ItemsOf(pages))))
            && (pages != [] && p.place.order.ByName? && (|pages| > 1 || !Descending(p.place.direction)) ==>
                  p.rows == Some(Sorted(Concat(ItemsOf(pages)), collate, Descending(p.place.direction))))
  {
    hide Play, AllHonest, Sorted, Screen, Step;
    var p := Play(Opened(place), events, collate);
    assert ShowsTaken(Opened(place), collate) && InOrder(Opened(place));
    PlayShowsTaken(Opened(place), events, collate);
    PlayTakesFirstPages(serve, Opened(place), events, collate);
    if p.taken != [] {
      MergingIsOneSort(ItemsOf(p.taken), p.place.order, p.place.direction, collate);
    }
  }

  /** An answer to a listing no longer in force changes no row, no cursor and no message; it only frees the button. */
  lemma LateAnswerShowsNothing(p: Pane, i: nat, reply: Reply, collate: Collation)
    requires InOrder(p) && i < |p.flight| && p.flight[i].run < p.run
    ensures Step(p, Answer(i, reply), collate) ==
            p.(flight := Without(p.flight, i), paging := p.paging && p.flight[i].from.None?)
  {
    assert Timely(p, p.flight[i]);
  }

  /**
   The answer to the first page of the listing in force is shown at once: its rows in the server's order, or by name with
   folders first under the name key, and its cursor. A failure says so and shows nothing; a refusal changes nothing.
   */
  lemma FirstAnswerIs(p: Pane, i: nat, page: Page, collate: Collation)
    requires InOrder(p) && ShowsTaken(p, collate)
    requires i < |p.flight| && p.flight[i].run == p.run && p.flight[i].from.None?
    ensures var q := Step(p, Answer(i, Got(page)), collate);
            && q.rows == Some(if p.place.order.ByName? then Sorted(page.items, collate, false) else page.items)
            && q.taken == [page] && q.more == page.hasMore && q.cursor == page.nextCursor && !q.failed
            && q.run == p.run && q.place == p.place && q.paging == p.paging && q.flight == Without(p.flight, i)
    ensures var q := Step(p, Answer(i, Failed), collate);
            && q.failed && q.rows.None? && !q.more && q.cursor.None? && q.taken == []
            && q.run == p.run && q.place == p.place && q.paging == p.paging && q.flight == Without(p.flight, i)
    ensures Step(p, Answer(i, Unauthorised), collate) == p.(flight := Without(p.flight, i))
  {
    hide Sorted, Screen;
    assert Timely(p, p.flight[i]);
  }

  /** A continuation that fails or is refused takes nothing off the screen; the button can be pressed again. */
  lemma FailedMoreKeepsRows(p: Pane, i: nat, reply: Reply, collate: Collation)
    requires InOrder(p) && i < |p.flight| && p.flight[i].from.Some? && !reply.Got?
    ensures Step(p, Answer(i, reply), collate) == p.(flight := Without(p.flight, i), paging := false)
  {
  }

  /** A move shows nothing, forgets the cursor and asks for the first page of the new place, in a new run. */
  lemma MoveStartsOver(p: Pane, to: Place, collate: Collation)
    requires InOrder(p)
    ensures var q := Step(p, Move(to), collate);
            && q.run > p.run && q.place == to && q.rows.None? && !q.failed && q.cursor.None? && q.taken == []
            && |q.flight| == |p.flight| + 1
            && q.flight[|p.flight|] == Asked(q.run, to, None, false)
            && forall i :: 0 <= i < |p.flight| ==> q.flight[i].run < q.run && q.flight[i].from == p.flight[i].from
    ensures Opened(to).place == to && Opened(to).rows.None? && Opened(to).flight == [Asked(Opened(to).run, to, None, false)]
  {
    assert forall i :: 0 <= i < |p.flight| ==> Timely(p, p.flight[i]);
  }

  /**
   The button works exactly when a cursor is known and no continuation is on its way, not even one of an older
   listing; pressed then and answered, it adds exactly the page at the cursor.
   */
  lemma PressAddsOnePage(p: Pane, page: Page, collate: Collation)
    requires InOrder(p) && ShowsTaken(p, collate)
    ensures var pressed := Step(p, PressMore, collate);
            (|pressed.flight| > |p.flight| <==>
              p.cursor.Some? && forall i :: 0 <= i < |p.flight| ==> p.flight[i].from.None?)
            && (pressed != p ==>
                  var q := Step(pressed, Answer(|p.flight|, Got(page)), collate);
                  q.taken == p.taken + [page] && q.flight == p.flight && !q.paging)
  {
    hide Merged, FirstDrawn, Screen;
    assert forall i :: 0 <= i < |p.flight| ==> Timely(p, p.flight[i]);
  }

  // ---- the component ---------------------------------------------------------------------------

  /** The component's state. What is on its way and what was taken are kept for the proof. */
  class FilesPane {
    var run: nat
    var place: Place
    var rows: Option<seq<Entry>>
    var failed: bool
    var more: bool
    var cursor: Option<string>
    var paging: bool
    ghost var flight: seq<Asked>
    ghost var taken: seq<Page>

    ghost function View(): Pane reads this {
      Pane(run, place, rows, failed, more, cursor, paging, flight, taken)
    }

    constructor (at: Place)
      ensures View() == Opened(at)
    {
      run, place, rows, failed, more, cursor, paging := 1, at, None, false, false, None, false;
      flight, taken := [Asked(1, at, None, false)], [];
    }

    /** The listing effect: a dependency changed. */
    method MoveTo(to: Place, collate: Collation) returns (asked: Asked)
      modifies this
      ensures View() == Step(old(View()), Move(to), collate)
      ensures flight == Cancelled(old(flight)) + [asked]
    {
      place := to;
      run := run + 1;
      rows, failed, cursor := None, false, None;
      asked := Asked(run, to, None, false);
      flight, taken := Cancelled(flight) + [asked], [];
    }

    /** `loadMore` up to its request. */
    method LoadMore(collate: Collation) returns (asked: Option<Asked>)
      modifies this
      ensures View() == Step(old(View()), PressMore, collate)
      ensures asked.Some? ==> flight == old(flight) + [asked.value]
    {
      if cursor.None? || paging { return None; }
      paging := true;
      asked := Some(Asked(run, place, cursor, false));
      flight := flight + [asked.value];
    }

    /** The rest of `loadMore`, once its answer is in. */
    method MoreArrives(ghost i: nat, asked: Asked, reply: Reply, collate: Collation)
      requires i < |flight| && flight[i] == asked && asked.from.Some?
      modifies this
      ensures View() == Step(old(View()), Answer(i, reply), collate)
    {
      flight := Without(flight, i);
      paging := false;
      if asked.run != run || !reply.Got? { return; }
      var page := reply.page;
      rows := Some(Merged(if rows.Some? then rows.value else [], page.items, asked.place.order, asked.place.direction, collate));
      more, cursor := page.hasMore, page.nextCursor;
      taken := taken + [page];
    }

    /** The rest of the listing effect, once its answer is in. */
    method FirstArrives(ghost i: nat, asked: Asked, reply: Reply, collate: Collation)
      requires i < |flight| && flight[i] == asked && asked.from.None?
      modifies this
      ensures View() == Step(old(View()), Answer(i, reply), collate)
    {
      flight := Without(flight, i);
      if asked.cancelled || reply.Unauthorised? { return; }
      if reply.Failed? {
        failed, more := true, false;
        return;
      }
      var page := reply.page;
      rows := Some(FirstDrawn(page.items, asked.place.order, collate));
      more, cursor := page.hasMore, page.nextCursor;
      taken := [page];
    }
  }
}
