/** The online segmenter: source events arrive one by one and leave as segment drafts. It computes the
    one partition of the accepted events whose cuts are exactly the declared boundaries. */
module Segmentation {
  import opened Wrappers
  import opened Integers
  import opened Text

  const INACTIVITY_MILLIS: int := 90_000
  const MAX_SEGMENT_MILLIS: int := 15 * 60_000
  const MAX_EXTRACTION_BATCH_CHARS: nat := 12_000

  datatype Boundary =
    | AppChanged | ProjectChanged | Inactivity | SessionEnded | MaximumDuration | CapturePaused | Shutdown | Sleep

  datatype Event = Event(
    id: string, app: Option<string>, scope: Option<string>, started: int, ended: int, text: string)

  datatype Draft = Draft(
    app: Option<string>, scope: Option<string>, started: int, ended: int,
    reason: Boundary, ids: seq<string>, texts: seq<string>)

  datatype Transition = Transition(closed: Option<Draft>, admitted: bool)

  datatype SegmentationError = ReversedInterval | OutOfOrder | OversizedSource

  datatype OpenSegment = OpenSegment(
    app: Option<string>, scope: Option<string>, started: int, ended: int,
    ids: seq<string>, texts: seq<string>, seen: set<string>)

  // ---------- the segmenter ----------

  function BoundaryFor(open: OpenSegment, e: Event): Option<Boundary> {
    if e.app != open.app then Some(AppChanged)
    else if e.scope != open.scope then Some(ProjectChanged)
    else if SaturatingSub(e.started, open.ended) >= INACTIVITY_MILLIS then Some(Inactivity)
    else if SaturatingSub(e.ended, open.started) >= MAX_SEGMENT_MILLIS then Some(MaximumDuration)
    else None
  }

  function InputError(e: Event): Option<SegmentationError> {
    if e.ended < e.started then Some(ReversedInterval)
    else if |e.text| > MAX_EXTRACTION_BATCH_CHARS then Some(OversizedSource)
    else None
  }

  function DraftFrom(open: OpenSegment, reason: Boundary): Draft {
    Draft(open.app, open.scope, open.started, open.ended, reason, open.ids, open.texts)
  }

  function Opened(e: Event): OpenSegment { OpenSegment(e.app, e.scope, e.started, e.ended, [], [], {}) }

  function Absorb(open: OpenSegment, e: Event): OpenSegment {
    var normalized := Normalize(e.text);
    var ended := if open.ended < e.ended then e.ended else open.ended;
    var longer := open.(ended := ended, seen := open.seen + {normalized});
    if normalized in open.seen then longer
    else longer.(ids := open.ids + [e.id], texts := open.texts + [normalized])
  }

  /** One admission: the segment left open and the reply. */
  function Admitting(open: Option<OpenSegment>, e: Event)
    : (Option<OpenSegment>, Result<Transition, SegmentationError>)
  {
    if InputError(e).Some? then (open, Err(InputError(e).value))
    else if open.None? then (Some(Absorb(Opened(e), e)), Ok(Transition(None, true)))
    else if e.started < open.value.ended then (open, Err(OutOfOrder))
    else
      var boundary := BoundaryFor(open.value, e);
      if boundary.Some? then
        (Some(Absorb(Opened(e), e)), Ok(Transition(Some(DraftFrom(open.value, boundary.value)), true)))
      else
        (Some(Absorb(open.value, e)), Ok(Transition(None, Normalize(e.text) !in open.value.seen)))
  }

  /** Which events are refused: one that ends before it starts, one with an oversized text, and one that starts
      before the open segment ended. A refusal leaves the segment as it is. */
  lemma RefusedExactly(open: Option<OpenSegment>, e: Event)
    ensures var (next, r) := Admitting(open, e);
      var sound := e.started <= e.ended && |e.text| <= 12_000;
      && (r == Err(ReversedInterval) <==> e.ended < e.started)
      && (r == Err(OversizedSource) <==> e.started <= e.ended && |e.text| > 12_000)
      && (r == Err(OutOfOrder) <==> sound && open.Some? && e.started < open.value.ended)
      && (r.Err? ==> next == open)
  {
    hide Absorb, BoundaryFor;
  }

  /** Whether an event may join the open segment: the same app and scope, less than 90 seconds after it, and ending
      less than 15 minutes from its start. */
  predicate Joins(open: OpenSegment, e: Event) {
    && e.app == open.app && e.scope == open.scope
    && e.started - open.ended < 90_000 && e.ended - open.started < 900_000
  }

  /** What an accepted event does: it joins the open segment, or closes it for the first reason against that and
      opens its own. A text the segment already holds adds nothing but its time. */
  lemma AdmittedExactly(open: Option<OpenSegment>, e: Event)
    requires Admitting(open, e).1.Ok?
    ensures var (next, r) := Admitting(open, e);
      var joins := open.Some? && Joins(open.value, e); var text := Normalize(e.text);
      && next.Some? && (r.value.closed.Some? <==> open.Some? && !joins)
      && (r.value.admitted <==> !joins || text !in open.value.seen)
      && (!joins ==> next.value == OpenSegment(e.app, e.scope, e.started, e.ended, [e.id], [text], {text}))
      && (joins ==> next.value == OpenSegment(
            open.value.app, open.value.scope, open.value.started, e.ended,
            open.value.ids + (if text in open.value.seen then [] else [e.id]),
            open.value.texts + (if text in open.value.seen then [] else [text]), open.value.seen + {text}))
      && (r.value.closed.Some? ==> var o, d := open.value, r.value.closed.value;
            && d == Draft(o.app, o.scope, o.started, o.ended, d.reason, o.ids, o.texts)
            && (d.reason == AppChanged <==> e.app != o.app)
            && (d.reason == ProjectChanged <==> e.app == o.app && e.scope != o.scope)
            && (d.reason == Inactivity <==> e.app == o.app && e.scope == o.scope && e.started - o.ended >= 90_000)
            && d.reason in {AppChanged, ProjectChanged, Inactivity, MaximumDuration})
  {
    hide Normalize;
  }

  class ActivitySegmenter {
    var open: Option<OpenSegment>

    constructor ()
      ensures open == None
    {
      open := None;
    }

    method Admit(e: Event) returns (r: Result<Transition, SegmentationError>)
      modifies this
      ensures (open, r) == Admitting(old(open), e)
    {
      if e.ended < e.started { return Err(ReversedInterval); }
      if |e.text| > MAX_EXTRACTION_BATCH_CHARS { return Err(OversizedSource); }
      if open.Some? && e.started < open.value.ended { return Err(OutOfOrder); }
      var closed: Option<Draft> := None;
      if open.Some? {
        var boundary := BoundaryFor(open.value, e);
        if boundary.Some? {
          closed := TakeOpen(boundary.value);
        }
      }
      if open.None? {
        open := Some(Opened(e));
      }
      var segment := open.value;
      var normalized := Normalize(e.text);
      var admitted := normalized !in segment.seen;
      segment := segment.(seen := segment.seen + {normalized});
      if segment.ended < e.ended {
        segment := segment.(ended := e.ended);
      }
      if admitted {
        segment := segment.(ids := segment.ids + [e.id], texts := segment.texts + [normalized]);
      }
      open := Some(segment);
      return Ok(Transition(closed, admitted));
    }

    method Close(reason: Boundary) returns (draft: Option<Draft>)
      modifies this
      ensures open == None
      ensures draft == if old(open).Some? then Some(DraftFrom(old(open).value, reason)) else None
    {
      draft := TakeOpen(reason);
    }

    method TakeOpen(reason: Boundary) returns (draft: Option<Draft>)
      modifies this
      ensures open == None
      ensures draft == if old(open).Some? then Some(DraftFrom(old(open).value, reason)) else None
    {
      draft := if open.Some? then Some(DraftFrom(open.value, reason)) else None;
      open := None;
    }
  }

  /** The drafts of a session: every input admitted in turn, then a close. */
  function Session(open: Option<OpenSegment>, inputs: seq<Event>, reason: Boundary): seq<Draft>
    decreases |inputs|
  {
    if inputs == [] then
      if open.Some? then [DraftFrom(open.value, reason)] else []
    else
      var (next, reply) := Admitting(open, inputs[0]);
      (if reply.Ok? && reply.value.closed.Some? then [reply.value.closed.value] else [])
      + Session(next, inputs[1..], reason)
  }

  // ---------- the declarative partition ----------

  /** The events a session accepts: well-formed, and starting no earlier than the last accepted one ended. */
  function Accepted(inputs: seq<Event>, until: Option<int>): seq<Event>
    decreases |inputs|
  {
    if inputs == [] then []
    else if InputError(inputs[0]).None? && (until.None? || until.value <= inputs[0].started) then
      [inputs[0]] + Accepted(inputs[1..], Some(inputs[0].ended))
    else Accepted(inputs[1..], until)
  }

  predicate InOrder(events: seq<Event>) {
    && (forall i | 0 <= i < |events| :: InputError(events[i]).None?)
    && (forall i | 1 <= i < |events| :: events[i - 1].ended <= events[i].started)
  }

  /** Whether `e` may not join the group `g`, and why. */
  function Cut(g: seq<Event>, e: Event): Option<Boundary>
    requires g != []
  {
    if e.app != g[0].app then Some(AppChanged)
    else if e.scope != g[0].scope then Some(ProjectChanged)
    else if e.started - g[|g| - 1].ended >= INACTIVITY_MILLIS then Some(Inactivity)
    else if e.ended - g[0].started >= MAX_SEGMENT_MILLIS then Some(MaximumDuration)
    else None
  }

  datatype Piece = Piece(events: seq<Event>, reason: Boundary)

  ghost predicate Unbroken(g: seq<Event>) {
    g != [] && forall k | 1 <= k < |g| :: Cut(g[..k], g[k]).None?
  }

  function Flatten(pieces: seq<Piece>): seq<Event> {
    if pieces == [] then [] else pieces[0].events + Flatten(pieces[1..])
  }

  /** The pieces put together are the events; no piece holds a boundary; between two pieces there is one,
      and it is the first piece's reason; the last piece was closed for `reason`. */
  ghost predicate IsPartition(pieces: seq<Piece>, events: seq<Event>, reason: Boundary) {
    && Flatten(pieces) == events
    && (forall i | 0 <= i < |pieces| :: Unbroken(pieces[i].events))
    && (forall i | 0 <= i < |pieces| - 1 ::
          Cut(pieces[i].events, pieces[i + 1].events[0]) == Some(pieces[i].reason))
    && (pieces != [] ==> pieces[|pieces| - 1].reason == reason)
  }

  /** The texts of a group: each normalised text once, where it first appears. */
  function FirstTexts(g: seq<Event>): seq<string> {
    if g == [] then []
    else
      var n := |g| - 1;
      var texts := FirstTexts(g[..n]);
      if Normalize(g[n].text) in texts then texts else texts + [Normalize(g[n].text)]
  }

  function FirstIds(g: seq<Event>): seq<string> {
    if g == [] then []
    else
      var n := |g| - 1;
      FirstIds(g[..n]) + if Normalize(g[n].text) in FirstTexts(g[..n]) then [] else [g[n].id]
  }

  function PieceDraft(p: Piece): Draft
    requires p.events != []
  {
    var g := p.events;
    Draft(g[0].app, g[0].scope, g[0].started, g[|g| - 1].ended, p.reason, FirstIds(g), FirstTexts(g))
  }

  function Drafts(pieces: seq<Piece>): seq<Draft>
    requires forall i | 0 <= i < |pieces| :: pieces[i].events != []
  {
    seq(|pieces|, i requires 0 <= i < |pieces| => PieceDraft(pieces[i]))
  }

  // ---------- existence and uniqueness of the partition ----------

  /** The partition, computed from a group already begun. */
  function Pieces(g: seq<Event>, events: seq<Event>, reason: Boundary): seq<Piece>
    decreases |events|
  {
    if events == [] then
      if g == [] then [] else [Piece(g, reason)]
    else if g != [] && Cut(g, events[0]).Some? then
      [Piece(g, Cut(g, events[0]).value)] + Pieces([events[0]], events[1..], reason)
    else Pieces(g + [events[0]], events[1..], reason)
  }

  lemma Extended(g: seq<Event>, e: Event)
    requires g == [] || (Unbroken(g) && Cut(g, e).None?)
    ensures Unbroken(g + [e])
  {
    var h := g + [e];
    forall k | 1 <= k < |h| ensures Cut(h[..k], h[k]).None? {
      assert h[..k] == if k == |g| then g else g[..k];
    }
  }

  lemma CutPartition(g: seq<Event>, rest: seq<Piece>, events: seq<Event>, reason: Boundary)
    requires Unbroken(g) && events != [] && Cut(g, events[0]).Some?
    requires IsPartition(rest, events, reason) && rest != [] && [events[0]] <= rest[0].events
    ensures IsPartition([Piece(g, Cut(g, events[0]).value)] + rest, g + events, reason)
  {
    var all := [Piece(g, Cut(g, events[0]).value)] + rest;
    assert all[1..] == rest;
    assert rest[0].events[0] == [events[0]][0];
    hide Cut, Unbroken;
  }

  lemma LastPiece(g: seq<Event>, reason: Boundary)
    requires Unbroken(g)
    ensures IsPartition([Piece(g, reason)], g, reason)
  {
    assert [Piece(g, reason)][1..] == [] && Flatten([]) == [];
    assert Flatten([Piece(g, reason)]) == g + [];
    hide Cut, Unbroken;
  }

  lemma EmptyPartition(reason: Boundary)
    ensures IsPartition([], [], reason)
  {
  }

  lemma {:induction false} PiecesPartition(g: seq<Event>, events: seq<Event>, reason: Boundary)
    requires g == [] || Unbroken(g)
    ensures IsPartition(Pieces(g, events, reason), g + events, reason)
    ensures g != [] ==> Pieces(g, events, reason) != [] && g <= Pieces(g, events, reason)[0].events
    decreases |events|
  {
    if events == [] {
      assert g + [] == g;
      if g != [] {
        LastPiece(g, reason);
      } else {
        EmptyPartition(reason);
      }
      hide IsPartition, Cut, Unbroken;
    } else if g != [] && Cut(g, events[0]).Some? {
      Extended([], events[0]);
      PiecesPartition([events[0]], events[1..], reason);
      assert [events[0]] + events[1..] == events && [] + [events[0]] == [events[0]];
      CutPartition(g, Pieces([events[0]], events[1..], reason), events, reason);
      hide IsPartition, Cut, Unbroken;
    } else {
      Extended(g, events[0]);
      PiecesPartition(g + [events[0]], events[1..], reason);
      assert g + [events[0]] + events[1..] == g + events;
      hide IsPartition, Cut, Unbroken;
    }
  }

  lemma PartitionTail(p: seq<Piece>, events: seq<Event>, reason: Boundary)
    requires IsPartition(p, events, reason) && p != []
    ensures p[0].events <= events
    ensures IsPartition(p[1..], events[|p[0].events|..], reason)
  {
    assert events == p[0].events + Flatten(p[1..]);
  }

  lemma FlattenEmpty(p: seq<Piece>)
    requires forall i | 0 <= i < |p| :: p[i].events != []
    requires Flatten(p) == []
    ensures p == []
  {
  }

  /** The first piece is all of `g`: the next event, if any, begins the second piece at a boundary. */
  lemma PieceEnds(p: seq<Piece>, g: seq<Event>, events: seq<Event>, reason: Boundary)
    requires IsPartition(p, g + events, reason) && p != [] && p[0].events == g
    ensures events == [] ==> p == [Piece(g, reason)]
    ensures events != [] ==>
      && IsPartition(p[1..], events, reason) && p[1..] != [] && [events[0]] <= p[1].events
      && Cut(g, events[0]) == Some(p[0].reason)
  {
    PartitionTail(p, g + events, reason);
    assert (g + events)[|g|..] == events;
    if events == [] {
      FlattenEmpty(p[1..]);
    } else {
      assert p[1..][0] == p[1];
      assert events == p[1].events + Flatten(p[1..][1..]);
    }
  }

  /** The first piece goes on beyond `g`: the next event joins it. */
  lemma PieceGoesOn(p: seq<Piece>, g: seq<Event>, events: seq<Event>, reason: Boundary)
    requires IsPartition(p, g + events, reason) && p != [] && g <= p[0].events && g != p[0].events
    ensures events != [] && g + [events[0]] <= p[0].events && (g != [] ==> Cut(g, events[0]).None?)
  {
    var first := p[0].events;
    assert first + Flatten(p[1..]) == g + events;
    assert |first| > |g| && (first + Flatten(p[1..]))[|g|] == first[|g|] && (g + events)[|g|] == events[0];
    assert first[..|g|] == g && Unbroken(first);
  }

  lemma {:induction false} PartitionIsPieces(p: seq<Piece>, g: seq<Event>, events: seq<Event>, reason: Boundary)
    requires IsPartition(p, g + events, reason)
    requires g != [] ==> p != [] && g <= p[0].events
    ensures p == Pieces(g, events, reason)
    decreases |events|, |p|
  {
    if p == [] || (g == [] && events == []) {
      FlattenEmpty(p);
    } else if g != [] && p[0].events == g {
      PieceEnds(p, g, events, reason);
      hide IsPartition;
      if events != [] {
        assert [events[0]] + events[1..] == events;
        PartitionIsPieces(p[1..], [events[0]], events[1..], reason);
        assert p == [Piece(g, p[0].reason)] + p[1..];
      }
    } else {
      assert p[0].events != [];
      PieceGoesOn(p, g, events, reason);
      hide IsPartition;
      assert g + [events[0]] + events[1..] == g + events;
      PartitionIsPieces(p, g + [events[0]], events[1..], reason);
    }
  }

  /** There is exactly one partition of a sequence of events at its boundaries. */
  lemma PartitionUnique(p: seq<Piece>, q: seq<Piece>, events: seq<Event>, reason: Boundary)
    requires IsPartition(p, events, reason) && IsPartition(q, events, reason)
    ensures p == q
  {
    assert [] + events == events;
    PartitionIsPieces(p, [], events, reason);
    PartitionIsPieces(q, [], events, reason);
  }

  // ---------- the segmenter computes it ----------

  /** The open segment of a group of accepted events. */
  ghost predicate Represents(open: Option<OpenSegment>, g: seq<Event>) {
    && (open.None? <==> g == [])
    && (open.Some? ==>
          && open.value.app == g[0].app && open.value.scope == g[0].scope && open.value.started == g[0].started
          && open.value.ended == g[|g| - 1].ended
          && open.value.ids == FirstIds(g) && open.value.texts == FirstTexts(g)
          && (forall t :: t in open.value.seen <==> t in open.value.texts))
  }

  lemma AbsorbRepresents(open: OpenSegment, g: seq<Event>, e: Event)
    requires InputError(e).None?
    requires if g == [] then open == Opened(e) else Represents(Some(open), g) && open.ended <= e.started
    ensures Represents(Some(Absorb(open, e)), g + [e])
  {
    var h := g + [e];
    assert h[..|h| - 1] == g;
    assert FirstTexts([]) == [] && FirstIds([]) == [];
  }

  lemma BoundaryIsCut(open: OpenSegment, g: seq<Event>, e: Event)
    requires g != [] && Represents(Some(open), g)
    ensures BoundaryFor(open, e) == Cut(g, e)
  {
  }

  lemma DraftIsPieceDraft(open: OpenSegment, g: seq<Event>, reason: Boundary)
    requires g != [] && Represents(Some(open), g)
    ensures DraftFrom(open, reason) == PieceDraft(Piece(g, reason))
  {
  }

  lemma {:induction false} PiecesNonEmpty(g: seq<Event>, events: seq<Event>, reason: Boundary)
    ensures forall i | 0 <= i < |Pieces(g, events, reason)| :: Pieces(g, events, reason)[i].events != []
    decreases |events|
  {
    if events != [] {
      hide Cut;
      PiecesNonEmpty([events[0]], events[1..], reason);
      PiecesNonEmpty(g + [events[0]], events[1..], reason);
    }
  }

  lemma DraftsCons(p: Piece, rest: seq<Piece>)
    requires p.events != [] && forall i | 0 <= i < |rest| :: rest[i].events != []
    ensures Drafts([p] + rest) == [PieceDraft(p)] + Drafts(rest)
  {
  }

  function LastEnd(g: seq<Event>): Option<int> { if g == [] then None else Some(g[|g| - 1].ended) }

  lemma {:induction false} SessionFollowsPieces(
      open: Option<OpenSegment>, g: seq<Event>, inputs: seq<Event>, reason: Boundary)
    requires Represents(open, g)
    ensures forall i | 0 <= i < |Pieces(g, Accepted(inputs, LastEnd(g)), reason)| ::
              Pieces(g, Accepted(inputs, LastEnd(g)), reason)[i].events != []
    ensures Session(open, inputs, reason) == Drafts(Pieces(g, Accepted(inputs, LastEnd(g)), reason))
    decreases |inputs|
  {
    PiecesNonEmpty(g, Accepted(inputs, LastEnd(g)), reason);
    if inputs == [] {
      if g != [] {
        DraftIsPieceDraft(open.value, g, reason);
      }
    } else {
      var e := inputs[0];
      if InputError(e).None? && (LastEnd(g).None? || LastEnd(g).value <= e.started) {
        AcceptedStep(open, g, inputs, reason);
      } else {
        assert Admitting(open, e).0 == open && Admitting(open, e).1.Err?;
        SessionFollowsPieces(open, g, inputs[1..], reason);
      }
    }
  }

  /** Admitting an acceptable event closes the group with its draft at a boundary, and otherwise extends it. */
  lemma AdmittedStep(open: Option<OpenSegment>, g: seq<Event>, e: Event)
    requires Represents(open, g) && InputError(e).None? && (LastEnd(g).None? || LastEnd(g).value <= e.started)
    ensures var (next, reply) := Admitting(open, e);
      && reply.Ok? && LastEnd([e]) == LastEnd(g + [e]) == Some(e.ended)
      && (if g != [] && Cut(g, e).Some?
          then Represents(next, [e]) && reply.value.closed == Some(PieceDraft(Piece(g, Cut(g, e).value)))
          else Represents(next, g + [e]) && reply.value.closed == None)
  {
    if g != [] {
      BoundaryIsCut(open.value, g, e);
    }
    if g != [] && Cut(g, e).Some? {
      AbsorbRepresents(Opened(e), [], e);
      assert [] + [e] == [e];
      DraftIsPieceDraft(open.value, g, Cut(g, e).value);
    } else {
      AbsorbRepresents(if g == [] then Opened(e) else open.value, g, e);
    }
    hide Absorb, Cut, DraftFrom, PieceDraft, Represents;
  }

  lemma {:induction false} AcceptedStep(open: Option<OpenSegment>, g: seq<Event>, inputs: seq<Event>, reason: Boundary)
    requires Represents(open, g) && inputs != [] && InputError(inputs[0]).None?
    requires LastEnd(g).None? || LastEnd(g).value <= inputs[0].started
    ensures forall i | 0 <= i < |Pieces(g, Accepted(inputs, LastEnd(g)), reason)| ::
              Pieces(g, Accepted(inputs, LastEnd(g)), reason)[i].events != []
    ensures Session(open, inputs, reason) == Drafts(Pieces(g, Accepted(inputs, LastEnd(g)), reason))
    decreases |inputs|, 0
  {
    var e := inputs[0];
    var rest := Accepted(inputs[1..], Some(e.ended));
    assert Accepted(inputs, LastEnd(g)) == [e] + rest && ([e] + rest)[1..] == rest;
    PiecesNonEmpty(g, [e] + rest, reason);
    AdmittedStep(open, g, e);
    var (next, reply) := Admitting(open, e);
    assert Session(open, inputs, reason)
        == (if reply.value.closed.Some? then [reply.value.closed.value] else []) + Session(next, inputs[1..], reason);
    hide Admitting, Represents, Accepted, Session, Cut, PieceDraft;
    if g != [] && Cut(g, e).Some? {
      SessionFollowsPieces(next, [e], inputs[1..], reason);
      PiecesNonEmpty([e], rest, reason);
      assert Pieces(g, [e] + rest, reason) == [Piece(g, Cut(g, e).value)] + Pieces([e], rest, reason);
      DraftsCons(Piece(g, Cut(g, e).value), Pieces([e], rest, reason));
    } else {
      SessionFollowsPieces(next, g + [e], inputs[1..], reason);
    }
  }

  /** Main result: over any session, the drafts are those of the one partition of the accepted events. */
  lemma SessionIsPartition(inputs: seq<Event>, reason: Boundary, p: seq<Piece>)
    requires IsPartition(p, Accepted(inputs, None), reason)
    ensures Session(None, inputs, reason) == Drafts(p)
  {
    var events := Accepted(inputs, None);
    SessionFollowsPieces(None, [], inputs, reason);
    assert [] + events == events;
    PartitionIsPieces(p, [], events, reason);
  }

  lemma PartitionExists(events: seq<Event>, reason: Boundary)
    ensures exists p :: IsPartition(p, events, reason)
  {
    PiecesPartition([], events, reason);
    assert [] + events == events;
  }

  // ---------- what every draft satisfies ----------

  lemma {:induction false} AcceptedInOrder(inputs: seq<Event>, until: Option<int>)
    ensures InOrder(Accepted(inputs, until))
    ensures var a := Accepted(inputs, until); a != [] && until.Some? ==> until.value <= a[0].started
    decreases |inputs|
  {
    if inputs != [] && InputError(inputs[0]).None? && (until.None? || until.value <= inputs[0].started) {
      var rest := Accepted(inputs[1..], Some(inputs[0].ended));
      AcceptedInOrder(inputs[1..], Some(inputs[0].ended));
      var all := [inputs[0]] + rest;
      forall i | 1 <= i < |all| ensures all[i - 1].ended <= all[i].started {
        if i > 1 {
          assert rest[i - 2].ended <= rest[i - 1].started;
        }
      }
    } else if inputs != [] {
      AcceptedInOrder(inputs[1..], until);
    }
  }

  lemma {:induction false} PiecesInOrder(p: seq<Piece>, i: nat)
    requires i < |p| && InOrder(Flatten(p))
    ensures InOrder(p[i].events)
  {
    var head, all := p[0].events, Flatten(p);
    if i == 0 {
      assert forall k | 0 <= k < |head| :: all[k] == head[k];
    } else {
      var rest := Flatten(p[1..]);
      assert all == head + rest;
      assert forall k | 0 <= k < |rest| :: rest[k] == all[|head| + k];
      PiecesInOrder(p[1..], i - 1);
    }
  }

  lemma {:induction false} UnbrokenSpan(g: seq<Event>, k: nat)
    requires Unbroken(g) && k < |g|
    ensures g[k].app == g[0].app && g[k].scope == g[0].scope
    ensures k >= 1 ==>
      g[k].started - g[k - 1].ended < INACTIVITY_MILLIS && g[k].ended - g[0].started < MAX_SEGMENT_MILLIS
  {
    if k >= 1 {
      assert Cut(g[..k], g[k]).None?;
    }
  }

  /** Position `f[k]` is where the `k`-th text of a draft first appears. */
  ghost predicate FirstAppearances(g: seq<Event>, f: seq<nat>, ids: seq<string>, texts: seq<string>) {
    && |f| == |ids| == |texts|
    && (forall k | 0 <= k < |f| :: f[k] < |g| && ids[k] == g[f[k]].id && texts[k] == Normalize(g[f[k]].text))
    && (forall k, j | 0 <= k < |f| && 0 <= j < f[k] :: Normalize(g[j].text) != texts[k])
    && (forall j, k | 0 <= j < k < |f| :: f[j] < f[k])
    && (forall j | 0 <= j < |g| :: Normalize(g[j].text) in texts)
  }

  lemma NothingAppears()
    ensures FirstAppearances([], [], FirstIds([]), FirstTexts([]))
  {
  }

  lemma AppearsAgain(g: seq<Event>, e: seq<nat>, ids: seq<string>, texts: seq<string>)
    requires g != [] && FirstAppearances(g[..|g| - 1], e, ids, texts) && Normalize(g[|g| - 1].text) in texts
    ensures FirstAppearances(g, e, ids, texts)
  {
    hide Normalize;
    var before := g[..|g| - 1];
    forall j | 0 <= j < |g| ensures Normalize(g[j].text) in texts {
      if j < |before| {
        assert Normalize(before[j].text) in texts;
      }
    }
  }

  lemma AppearsFirst(g: seq<Event>, e: seq<nat>, ids: seq<string>, texts: seq<string>)
    requires g != [] && FirstAppearances(g[..|g| - 1], e, ids, texts) && Normalize(g[|g| - 1].text) !in texts
    ensures FirstAppearances(g, e + [|g| - 1], ids + [g[|g| - 1].id], texts + [Normalize(g[|g| - 1].text)])
  {
    hide Normalize;
    var n := |g| - 1;
    var before, f, more := g[..n], e + [n], texts + [Normalize(g[n].text)];
    forall j | 0 <= j < n ensures Normalize(g[j].text) in texts {
      assert Normalize(before[j].text) in texts;
    }
    forall k, j | 0 <= k < |f| && 0 <= j < f[k] ensures Normalize(g[j].text) != more[k] {
      if k < |e| {
        assert Normalize(before[j].text) != texts[k];
      }
    }
  }

  lemma {:induction false} FirstsAreFirst(g: seq<Event>) returns (f: seq<nat>)
    ensures FirstAppearances(g, f, FirstIds(g), FirstTexts(g))
  {
    hide FirstAppearances, Normalize;
    f := [];
    if g != [] {
      var n := |g| - 1;
      var again := Normalize(g[n].text) in FirstTexts(g[..n]);
      var ids, texts := FirstIds(g[..n]), FirstTexts(g[..n]);
      assert FirstTexts(g) == if again then texts else texts + [Normalize(g[n].text)];
      assert FirstIds(g) == if again then ids + [] else ids + [g[n].id];
      assert ids + [] == ids;
      hide FirstTexts, FirstIds;
      f := FirstsAreFirst(g[..n]);
      if again {
        AppearsAgain(g, f, ids, texts);
      } else {
        AppearsFirst(g, f, ids, texts);
        f := f + [n];
      }
    } else {
      NothingAppears();
    }
  }

  /** What the consumers of a draft rely on. */
  ghost predicate SoundDraft(d: Draft, g: seq<Event>) {
    && (forall e | e in g :: e.app == d.app && e.scope == d.scope)
    && (forall k | 1 <= k < |g| :: 0 <= g[k].started - g[k - 1].ended < INACTIVITY_MILLIS)
    && (|g| >= 2 ==> d.ended - d.started < MAX_SEGMENT_MILLIS)
    && 1 <= |d.ids| == |d.texts|
    && (forall j, k | 0 <= j < k < |d.texts| :: d.texts[j] != d.texts[k])
    && (forall t | t in d.texts :: |t| <= MAX_EXTRACTION_BATCH_CHARS)
    && (exists f :: FirstAppearances(g, f, d.ids, d.texts))
  }

  lemma TextsDistinct(g: seq<Event>, f: seq<nat>, ids: seq<string>, texts: seq<string>)
    requires FirstAppearances(g, f, ids, texts)
    ensures forall j, k | 0 <= j < k < |texts| :: texts[j] != texts[k]
  {
    forall j, k | 0 <= j < k < |texts| ensures texts[j] != texts[k] {
      assert f[j] < f[k] && Normalize(g[f[j]].text) == texts[j];
    }
  }

  lemma PieceSpan(g: seq<Event>)
    requires Unbroken(g)
    ensures forall e | e in g :: e.app == g[0].app && e.scope == g[0].scope
    ensures forall k | 1 <= k < |g| :: g[k].started - g[k - 1].ended < INACTIVITY_MILLIS
    ensures |g| >= 2 ==> g[|g| - 1].ended - g[0].started < MAX_SEGMENT_MILLIS
  {
    forall k | 0 <= k < |g|
      ensures g[k].app == g[0].app && g[k].scope == g[0].scope
      ensures k >= 1 ==>
        g[k].started - g[k - 1].ended < INACTIVITY_MILLIS && g[k].ended - g[0].started < MAX_SEGMENT_MILLIS
    {
      UnbrokenSpan(g, k);
    }
  }

  lemma PieceTexts(g: seq<Event>, f: seq<nat>, texts: seq<string>, ids: seq<string>)
    requires InOrder(g) && FirstAppearances(g, f, ids, texts)
    ensures forall t | t in texts :: |t| <= MAX_EXTRACTION_BATCH_CHARS
  {
    forall t | t in texts ensures |t| <= MAX_EXTRACTION_BATCH_CHARS {
      var k :| 0 <= k < |texts| && texts[k] == t;
      NormalizeSound(g[f[k]].text);
    }
  }

  lemma Aligned(g: seq<Event>, f: seq<nat>)
    requires FirstAppearances(g, f, FirstIds(g), FirstTexts(g))
    ensures |FirstIds(g)| == |FirstTexts(g)|
  {
  }

  lemma PieceSound(p: Piece)
    requires Unbroken(p.events) && InOrder(p.events)
    ensures SoundDraft(PieceDraft(p), p.events)
  {
    var g := p.events;
    PieceSpan(g);
    var f := FirstsAreFirst(g);
    TextsDistinct(g, f, FirstIds(g), FirstTexts(g));
    PieceTexts(g, f, FirstTexts(g), FirstIds(g));
    assert Normalize(g[0].text) in FirstTexts(g);
    hide Normalize, FirstAppearances, FirstIds, FirstTexts, Unbroken;
    assert |FirstIds(g)| == |FirstTexts(g)| by { Aligned(g, f); }
  }

  /** Every draft of every session covers one app and scope with gaps under 90 seconds; it spans under 15
      minutes unless it holds a single event; and its ids and texts are aligned, distinct and bounded. */
  lemma SessionDraftsSound(inputs: seq<Event>, reason: Boundary, i: nat) returns (g: seq<Event>)
    requires i < |Session(None, inputs, reason)|
    ensures SoundDraft(Session(None, inputs, reason)[i], g) && InOrder(g)
  {
    var events := Accepted(inputs, None);
    PartitionExists(events, reason);
    var p: seq<Piece> :| IsPartition(p, events, reason);
    SessionIsPartition(inputs, reason, p);
    AcceptedInOrder(inputs, None);
    PiecesInOrder(p, i);
    g := p[i].events;
    PieceSound(p[i]);
    hide SoundDraft;
  }
}
