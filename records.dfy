/** The records of the scoreboard: one datatype per kind of JSON object kept
    in the data files, the "draft" a caller passes to an `add*` function before
    the defaults are filled in, and the named keys by which the collections
    are searched. Dates and timestamps are integers; ids are strings. */
module Records {
  import opened Collections

  type Id = string

  /** One recorded result of a participant in one event of a competition. */
  datatype Score = Score(
    id: Id,
    competitionId: Id,
    eventId: Id,
    participantId: Id,
    points: int,
    notes: string,
    recordedAt: int)

  /** The entry `competition_history` keeps per competition. */
  datatype HistoryEntry = HistoryEntry(
    competitionId: Id,
    competitionName: string,
    date: int,
    scores: seq<Score>,
    totalPoints: int)

  /** `personal_bests` maps an event id to the best points seen for it. */
  datatype Stats = Stats(personalBests: map<Id, int>, competitionHistory: seq<HistoryEntry>)

  const NoStats := Stats(map[], [])

  /** `team_id` may be absent (None); `created_at` may be absent in a record
      written by `updateParticipant` from data that did not carry it. */
  datatype Participant = Participant(
    id: Id,
    name: string,
    teamId: Option<Id>,
    categoryIds: seq<Id>,
    createdAt: Option<int>,
    stats: Stats)

  datatype Event = Event(
    id: Id,
    name: string,
    description: string,
    scoringType: string,
    maxPoints: int,
    createdAt: Option<int>)

  datatype Competition = Competition(
    id: Id,
    name: string,
    date: int,
    location: string,
    status: string,
    eventIds: seq<Id>,
    participantIds: seq<Id>,
    categoryIds: seq<Id>,
    createdAt: Option<int>)

  datatype Category = Category(id: Id, name: string, description: string)

  datatype Team = Team(id: Id, name: string, description: string)

  /** The three statuses the status endpoint accepts. */
  const Upcoming := "upcoming"
  const Active := "active"
  const Completed := "completed"

  predicate ValidStatus(s: string)
  {
    s == Upcoming || s == Active || s == Completed
  }

  /** What an `add*` caller supplies: the fields the function fills in when
      they are not set (`isset`) are options. */
  datatype ScoreDraft = ScoreDraft(
    id: Option<Id>,
    competitionId: Id,
    eventId: Id,
    participantId: Id,
    points: int,
    notes: string,
    recordedAt: Option<int>)
  {
    /** The record `addScore` stores: a fresh id and the current time where
        the draft does not carry them. */
    function Complete(freshId: Id, now: int): (s: Score)
      ensures s.id == (if id.Some? then id.value else freshId)
      ensures s.recordedAt == (if recordedAt.Some? then recordedAt.value else now)
      ensures s.competitionId == competitionId && s.eventId == eventId
              && s.participantId == participantId && s.points == points && s.notes == notes
    {
      Score(OrElse(id, freshId), competitionId, eventId, participantId, points, notes,
            OrElse(recordedAt, now))
    }
  }

  datatype ParticipantDraft = ParticipantDraft(
    id: Option<Id>,
    name: string,
    teamId: Option<Id>,
    categoryIds: seq<Id>,
    createdAt: Option<int>,
    stats: Option<Stats>)
  {
    function Complete(freshId: Id, now: int): (p: Participant)
      ensures p.id == (if id.Some? then id.value else freshId)
      ensures p.createdAt == Some(if createdAt.Some? then createdAt.value else now)
      ensures p.stats == (if stats.Some? then stats.value else NoStats)
      ensures p.name == name && p.teamId == teamId && p.categoryIds == categoryIds
    {
      Participant(OrElse(id, freshId), name, teamId, categoryIds,
                  Some(OrElse(createdAt, now)), OrElse(stats, NoStats))
    }
  }

  datatype EventDraft = EventDraft(
    id: Option<Id>,
    name: string,
    description: string,
    scoringType: string,
    maxPoints: int,
    createdAt: Option<int>)
  {
    function Complete(freshId: Id, now: int): (e: Event)
      ensures e.id == (if id.Some? then id.value else freshId)
      ensures e.createdAt == Some(if createdAt.Some? then createdAt.value else now)
      ensures e.name == name && e.description == description
              && e.scoringType == scoringType && e.maxPoints == maxPoints
    {
      Event(OrElse(id, freshId), name, description, scoringType, maxPoints,
            Some(OrElse(createdAt, now)))
    }
  }

  datatype CompetitionDraft = CompetitionDraft(
    id: Option<Id>,
    name: string,
    date: int,
    location: string,
    status: Option<string>,
    eventIds: Option<seq<Id>>,
    participantIds: Option<seq<Id>>,
    categoryIds: Option<seq<Id>>,
    createdAt: Option<int>)
  {
    /** A new competition has empty id lists and status "upcoming" unless
        the caller says otherwise. */
    function Complete(freshId: Id, now: int): (c: Competition)
      ensures c.id == (if id.Some? then id.value else freshId)
      ensures c.createdAt == Some(if createdAt.Some? then createdAt.value else now)
      ensures c.status == (if status.Some? then status.value else Upcoming)
      ensures c.eventIds == (if eventIds.Some? then eventIds.value else [])
      ensures c.participantIds == (if participantIds.Some? then participantIds.value else [])
      ensures c.categoryIds == (if categoryIds.Some? then categoryIds.value else [])
      ensures c.name == name && c.date == date && c.location == location
    {
      Competition(OrElse(id, freshId), name, date, location, OrElse(status, Upcoming),
                  OrElse(eventIds, []), OrElse(participantIds, []), OrElse(categoryIds, []),
                  Some(OrElse(createdAt, now)))
    }
  }

  datatype CategoryDraft = CategoryDraft(id: Option<Id>, name: string, description: string)
  {
    function Complete(freshId: Id): (c: Category)
      ensures c.id == (if id.Some? then id.value else freshId)
      ensures c.name == name && c.description == description
    {
      Category(OrElse(id, freshId), name, description)
    }
  }

  datatype TeamDraft = TeamDraft(id: Option<Id>, name: string, description: string)
  {
    function Complete(freshId: Id): (t: Team)
      ensures t.id == (if id.Some? then id.value else freshId)
      ensures t.name == name && t.description == description
    {
      Team(OrElse(id, freshId), name, description)
    }
  }

  function OrElse<T>(o: Option<T>, default: T): T
  {
    if o.Some? then o.value else default
  }

  /** A record written by `update*` keeps the stored id, and the stored
      `created_at` when the stored record has one; everything else comes from
      the caller's data. This is one rule, written out once for each of the
      three record types that carry `created_at` (participants, events,
      competitions), since a record update cannot be generic over types. */
  function KeepParticipantIdentity(stored: Participant, id: Id, updated: Participant): (p: Participant)
    ensures p.id == id
    ensures p.createdAt == (if stored.createdAt.Some? then stored.createdAt else updated.createdAt)
    ensures p.(id := updated.id, createdAt := updated.createdAt) == updated
  {
    updated.(id := id, createdAt := if stored.createdAt.Some? then stored.createdAt else updated.createdAt)
  }

  function KeepEventIdentity(stored: Event, id: Id, updated: Event): (e: Event)
    ensures e.id == id
    ensures e.createdAt == (if stored.createdAt.Some? then stored.createdAt else updated.createdAt)
    ensures e.(id := updated.id, createdAt := updated.createdAt) == updated
  {
    updated.(id := id, createdAt := if stored.createdAt.Some? then stored.createdAt else updated.createdAt)
  }

  function KeepCompetitionIdentity(stored: Competition, id: Id, updated: Competition): (c: Competition)
    ensures c.id == id
    ensures c.createdAt == (if stored.createdAt.Some? then stored.createdAt else updated.createdAt)
    ensures c.(id := updated.id, createdAt := updated.createdAt) == updated
  {
    updated.(id := id, createdAt := if stored.createdAt.Some? then stored.createdAt else updated.createdAt)
  }

  // Named keys.

  function ParticipantId(p: Participant): Id { p.id }
  function EventId(e: Event): Id { e.id }
  function CompetitionId(c: Competition): Id { c.id }
  function CategoryId(c: Category): Id { c.id }
  function TeamId(t: Team): Id { t.id }
  function ScoreId(s: Score): Id { s.id }

  function ParticipantTeam(p: Participant): Option<Id> { p.teamId }
  /** The test of `getParticipantsByCategory`. */
  function HasCategory(categoryId: Id): Participant -> bool
  {
    (p: Participant) => categoryId in p.categoryIds
  }

  function CompetitionStatus(c: Competition): string { c.status }
  function CompetitionDate(c: Competition): int { c.date }
  /** Sort key for soonest first: `usort` by `$a['date'] - $b['date']`. */
  function CompetitionEarliness(c: Competition): int { -c.date }

  /** The natural key `addScore` upserts by. */
  function ScoreKey(s: Score): (Id, Id, Id) { (s.competitionId, s.eventId, s.participantId) }
  function ScoreCompetition(s: Score): Id { s.competitionId }
  function ScoreCompetitionEvent(s: Score): (Id, Id) { (s.competitionId, s.eventId) }
  function ScoreCompetitionParticipant(s: Score): (Id, Id) { (s.competitionId, s.participantId) }
  function ScoreEvent(s: Score): Id { s.eventId }
  function ScoreParticipant(s: Score): Id { s.participantId }
  function ScorePoints(s: Score): int { s.points }

  function EntryCompetition(h: HistoryEntry): Id { h.competitionId }
  function EntryDate(h: HistoryEntry): int { h.date }

  /** `array_sum(array_column($scores, 'points'))`. */
  function SumPoints(scores: seq<Score>): int
  {
    if scores == [] then 0 else scores[0].points + SumPoints(scores[1..])
  }

  lemma {:induction false} SumPointsConcat(a: seq<Score>, b: seq<Score>)
    ensures SumPoints(a + b) == SumPoints(a) + SumPoints(b)
  {
    if a == [] {
      assert a + b == b;
    } else {
      assert (a + b)[1..] == a[1..] + b;
      SumPointsConcat(a[1..], b);
    }
  }
}
