/** The logic inside the submission card of
    src/components/broker/SubmissionCard.tsx: the coverage label (underscores
    shown as spaces), the status badge's colour class with its fallback, the
    "days open" line shown only for a positive count, and the guard on the
    drag handler. The badge table is the one in src/lib/status-colors.ts. */
module SubmissionCard {
  import opened Types

  datatype Submission = Submission(
    id: string,
    clientId: string,
    clientName: string,
    coverageType: CoverageType,
    limitRequested: int,
    premiumIndication: int,
    status: SubmissionStatus,
    syndicates: seq<string>,
    dateSubmitted: string,
    daysOpen: int,
    riskGrade: RiskGrade,
    territory: Territory)

  // ---------------------------------------------------------------------
  // Coverage label: `coverageType.replace(/_/g, " ")`

  /** Every underscore replaced by a space, everything else kept in place. */
  function ReplaceUnderscores(s: string): (r: string)
    ensures |r| == |s|
    ensures forall i :: 0 <= i < |s| ==> r[i] == (if s[i] == '_' then ' ' else s[i])
  {
    if s == [] then []
    else [if s[0] == '_' then ' ' else s[0]] + ReplaceUnderscores(s[1..])
  }

  /** The label never contains an underscore, and every character that was
      not an underscore is unchanged at its position. */
  lemma LabelHasNoUnderscore(s: string)
    ensures '_' !in ReplaceUnderscores(s)
    ensures forall i :: 0 <= i < |s| && s[i] != '_' ==> ReplaceUnderscores(s)[i] == s[i]
  {}

  /** Formatting an already formatted label changes nothing. */
  lemma ReplaceUnderscoresIdempotent(s: string)
    ensures ReplaceUnderscores(ReplaceUnderscores(s)) == ReplaceUnderscores(s)
  {
    var once := ReplaceUnderscores(s);
    assert forall i :: 0 <= i < |once| ==> once[i] != '_';
  }

  function CoverageLabel(c: CoverageType): (text: string)
    ensures |text| == |CoverageTypeName(c)| && '_' !in text
  {
    ReplaceUnderscores(CoverageTypeName(c))
  }

  // ---------------------------------------------------------------------
  // Status badge: `statusColors[submission.status] ?? "bg-muted text-muted-foreground"`

  const BADGE_FALLBACK := "bg-muted text-muted-foreground"

  /** `statusColors`: keyed by the submission statuses and also by the quote
      statuses "pending" and "accepted" ("expired" is shared by both). */
  const STATUS_COLORS: map<string, string> := map[
    "draft" := "text-zinc-500 bg-zinc-500/10",
    "submitted" := "text-[#007bff] bg-[#007bff]/10",
    "quoted" := "text-[#6f42c1] bg-[#6f42c1]/10",
    "bound" := "text-[#28a745] bg-[#28a745]/10",
    "declined" := "text-[#dc3545] bg-[#dc3545]/10",
    "expired" := "text-zinc-500 bg-zinc-500/10",
    "pending" := "text-[#ffc107] bg-[#ffc107]/15",
    "accepted" := "text-[#28a745] bg-[#28a745]/10"
  ]

  /** The badge class for a status string: the table entry, or the muted fallback. */
  function BadgeClass(status: string): (cls: string)
    ensures cls == BADGE_FALLBACK <==> status !in STATUS_COLORS
    ensures cls == BADGE_FALLBACK || cls in STATUS_COLORS.Values
  {
    if status in STATUS_COLORS then STATUS_COLORS[status] else BADGE_FALLBACK
  }

  /** Every submission status has an entry, so a well-typed status never
      shows the fallback class. */
  lemma BadgeNeverFallsBack(st: SubmissionStatus)
    ensures StatusName(st) in STATUS_COLORS
    ensures BadgeClass(StatusName(st)) == STATUS_COLORS[StatusName(st)] != BADGE_FALLBACK
  {
    match st
    case Draft => case Submitted => case Quoted => case Bound => case Declined => case Expired =>
  }

  /** An unknown status string gets the muted fallback class. */
  lemma BadgeFallbackForUnknown(status: string)
    requires status !in STATUS_COLORS
    ensures BadgeClass(status) == BADGE_FALLBACK
  {}

  // ---------------------------------------------------------------------
  // What the card shows

  /** The card's computed content: id, badge class and text, client name,
      coverage label, and the "N days open" line when it is present. */
  datatype CardView = CardView(
    id: string,
    badgeClass: string,
    statusText: string,
    clientName: string,
    coverageLabel: string,
    daysOpenLine: Option<int>)

  function RenderCard(s: Submission): (v: CardView)
    ensures v.badgeClass != BADGE_FALLBACK && v.statusText == StatusName(s.status)
    ensures '_' !in v.coverageLabel
    ensures v.daysOpenLine.Some? <==> s.daysOpen > 0
  {
    CardView(
      s.id,
      BadgeClass(StatusName(s.status)),
      StatusName(s.status),
      s.clientName,
      CoverageLabel(s.coverageType),
      if s.daysOpen > 0 then Some(s.daysOpen) else None)
  }

  /** The card's badge always comes from the table, its coverage label has no
      underscore, and the "days open" line appears exactly for a positive
      count and then shows that count. */
  lemma RenderCardFacts(s: Submission)
    ensures RenderCard(s).badgeClass == STATUS_COLORS[StatusName(s.status)]
    ensures '_' !in RenderCard(s).coverageLabel
    ensures |RenderCard(s).coverageLabel| == |CoverageTypeName(s.coverageType)|
    ensures RenderCard(s).daysOpenLine.Some? <==> s.daysOpen > 0
    ensures RenderCard(s).daysOpenLine.Some? ==> RenderCard(s).daysOpenLine.value == s.daysOpen
  {
    BadgeNeverFallsBack(s.status);
    LabelHasNoUnderscore(CoverageTypeName(s.coverageType));
  }

  // ---------------------------------------------------------------------
  // Drag start

  /** What the card's drag-start handler does: nothing, or write the payload
      (the submission, with effect "move") and call the parent's handler. */
  datatype DragOutcome = Ignored | PayloadSet(payload: Submission, effectAllowed: string)

  /** `draggable` defaults to true when the prop is absent; `hasHandler` says
      whether `onDragStart` was passed. */
  function OnDragStart(s: Submission, draggable: Option<bool>, hasHandler: bool): (o: DragOutcome)
    ensures o.PayloadSet? <==> draggable.GetOr(true) && hasHandler
    ensures o.PayloadSet? ==> o.payload == s && o.effectAllowed == "move"
  {
    if draggable.GetOr(true) && hasHandler then PayloadSet(s, "move") else Ignored
  }

  /** Without a handler, or with dragging switched off, nothing is written. */
  lemma DragNeedsBoth(s: Submission, hasHandler: bool)
    ensures OnDragStart(s, Some(false), hasHandler) == Ignored
    ensures OnDragStart(s, None, false) == Ignored
    ensures OnDragStart(s, None, true) == PayloadSet(s, "move")
  {}
}
