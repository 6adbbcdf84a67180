# calshare: what its core promises, proved

calshare is a CalDAV server that publishes filtered views of calendars, mirrors subscribed feeds and
exchanges invitations by mail. This project models the parts of it where the promises span several
functions or whole runs, and proves those promises:

- **View filter** (`Components`, `ViewRules`, `ViewFilter`, `Timezones`, `Instants`, `ViewMeaning`,
  `ViewPrivacy`, `ViewCalendar`, `PublicFields`). A calendar is given a meaning, the set of instances a reader
  sees, and the public calendar shows exactly the instances whose governing component passes the include
  flags. What two calendars may differ in without the public calendar differing is stated exactly, a series of
  which nothing is shown leaves no trace, and a second pass of a view changes nothing. Field by field and flag by flag, in
  the names that the design uses, it is stated which source events reach the public and what of them.
- **Occurrence index** (`OccurrenceIndex`). The stored first and last instants never prune an object for a
  window that one of its occurrences touches, the hypotheses this needs are shown to be exact, and so are the
  windows for which an object is kept.
- **Share rendering** (`ShareRendering`). Store, index and filter composed: in every reachable store a share
  shows exactly what the rows that its window reaches permit, and so every permitted instance of a recurring
  master that touches it.
- **Object store and feed mirror** (`ObjectStore`, `FeedMirror`). A class with rows, journal and sequence
  numbers whose methods may fail at any statement and then change nothing; over every run its keys stay
  unique and its journal rebuilds the table from any earlier token. A sync makes a calendar the mirror of a
  feed, and when statements fail it stays a mirror and loses nothing the feed still has.
- **Mail queue, scheduling and replies** (`MailQueue`, `Scheduling`, `Replies`). The retry state machine with
  its counting argument against starvation, by which every message ends, a scheduling pass that reaches every
  address as often as it is asked to, invitations that do not see the server's own annotations, and the round
  trip from a reply that is built to the attendee row that it changes.
- **Time zones** (`TransitionTable`, `YearlyRule`). Coarse sampling and binary search reconstruct a
  piecewise constant offset; a yearly rule denotes the date it was made from.
- **Line folding** (`LineFolding`), **rate limiter** (`RateLimiter`) and **poll backoff** (`PollBackoff`).
- `Witnesses` holds concrete inputs on which a promise fails, `Texts` and `Powers` what several modules share.

Code that works step by step is modelled by methods with loops, and by classes where it updates stored
state. Each such method is proved equal to a function of its input or of the old state, and the theorems
are lemmas about those functions. Where the behaviour has no counterpart inside the repository it is a
parameter with its assumptions spelled out: the rule engine (`Instants.FaithfulEngine`), date reading
(`Instants.Calendrics`), generated VTIMEZONEs (`Timezones.WellFormedZones`), encoding that decodes to what
was encoded and fresh row ids (`FeedMirror.Faithful`), an offset that changes at whole seconds at least six
hours apart (`TransitionTable.Spaced`). Instants and durations are integers in nanoseconds. `Option` and
small result datatypes stand for the error returns.

These promises of the code turned out to hold only under a condition on the input, and the exact condition is
proved, in both directions:

- Unfolding inverts folding if and only if the data ends in exactly one CRLF and no CRLF in it is followed
  by a space (`LineFolding.RoundTripIff`).
- The poll interval is min(24h, base * 2^failures) for every number of failures if and only if the low 64
  bits of the shifted base allow it for the first 22 counts (`PollBackoff.FormulaHoldsIff`), and the wait
  never shrinks while failures grow if and only if they do for the first 21 (`PollBackoff.MonotoneIff`). For
  the whole minutes that the forms store, both come down to at most a day (`PollBackoff.WholeMinutesIff`): a
  feed set to two days waits two days before its first failure and one day after it
  (`PollBackoff.TwoDaysShrink`). The configured default is any duration, and with 70369 s the shift wraps to
  less than the default itself (`PollBackoff.WrapShortensBackoff`).
- Filtering a series preserves its meaning if and only if, wherever a reader could tell, the RECURRENCE-IDs
  of the dropped overrides read to the same instants in their own zones and under the TZID of the master's
  DTSTART (`ViewMeaning.SeriesMeaningIff`, and `ViewMeaning.KeptMasterIff` for the kept master). The comment
  at `internal/views/filter.go:111-112` speaks of matching the TZID, but the value is copied unconverted,
  and the model follows the code. `Witnesses.MisreadOverride` is a series whose cancelled instance stays
  visible while another one is lost.
- The occurrence index keeps an object without a rule for every window that contains its start if and only if
  one of its components ends no earlier than that start (`OccurrenceIndex.PlainKeptIff`), so a lone event if
  and only if it does not end before it starts (`OccurrenceIndex.SingleKeptIff`); `Witnesses.BackwardsPruned`
  is one that does. It keeps a bounded series for every window in which an occurrence starts if and only if no
  occurrence past the first hundred years starts more than a span after the latest one within them
  (`OccurrenceIndex.BoundedKeptIff`); `Witnesses.PastCenturyPruned` is a series that it prunes.
- After a sync every feed UID has its object if and only if no two UIDs have one length and differ only where
  a href shows dashes (`FeedMirror.OneObjectPerUidIff`); `FeedMirror.SharedHref` names two that do.
- After a scheduling pass an attendee line of the stored event and the attendee's row say the same status if
  and only if, when the server delivered for the address, the last line for it asks for that too, and when it
  did not, the line carried no status before the pass (`Scheduling.StatusAgreesIff`). The pass never removes a
  status, so one from an earlier delivery stays behind when a client takes over the attendee
  (`Witnesses.StaleStatusStays`), and the row follows the last of several lines
  (`Witnesses.LastLineManaged`).
- The rate limiter gives every request of every run the verdict of its unbounded history if and only if its
  clock never goes back (`RateLimiter.RefinesIff`). If it does, errors both ways are possible
  (`RateLimiter.ClockGoingBackAdmits`, `RateLimiter.ClockGoingBackRefuses`).

Other results go one way, from the hypotheses that their contracts name: what a whole calendar or a share shows
(`ViewCalendar.ApplyMeaning`, `ShareRendering.SharedExactly`: one master in each series, dropped overrides that
read alike, no colliding promotions), a view applied twice (`ViewCalendar.ApplyIdempotent`), the spacing of
attempts (`MailQueue.GivesUpLate`: a clock that does not run back within a drain) and the table of a zone
(`TransitionTable.TableIsZone`: changes at least six hours apart).

## Model

| member | source | states |
|---|---|---|
| Components.GroupMembers | internal/views/filter.go:21-32 | a UID's group holds exactly the events with that UID |
| Timezones.ReferencedTzids | internal/ical/vtimezone.go:60-79 | the recursive walk finds exactly the TZID parameters of a calendar |
| Timezones.AllTzidsExactly | internal/ical/vtimezone.go:60-79 | a zone is collected if and only if somewhere in the tree a property names it as its TZID |
| Timezones.SortNames | internal/ical/vtimezone.go:36-40 | the names come out in strictly ascending order, each once |
| Timezones.CollectPresent | internal/ical/vtimezone.go:27-34 | the zones already present, read from the first TZID of each VTIMEZONE |
| Timezones.Generate | internal/ical/vtimezone.go:42-54 | present and unresolvable names are passed over |
| Timezones.BundleTimezones | internal/ical/vtimezone.go:22-58 | the imperative bundling equals the specification `Bundle` |
| Timezones.BundleResolves | internal/ical/vtimezone.go:42-57 | every resolvable referenced zone is present afterwards, what was injected stands ahead, the old children keep their order |
| Timezones.InjectedExactly | internal/ical/vtimezone.go:36-57 | what is put ahead are, in ascending order and each once, exactly the zones that are referred to, absent and resolvable |
| Timezones.BundleIdempotent | internal/ical/vtimezone.go:22-58 | bundling twice is bundling once |
| ViewRules.PresetRules | internal/views/views.go:43-72 | the table built by overwriting is the preset's rule for every managed field and no other |
| ViewRules.EffectiveRules | internal/views/views.go:95-101 | overrides win over the preset, in whatever order the map is visited |
| PublicFields.PresetGives | internal/views/views.go:29-72 | by name, the twenty managed fields, the thirteen that titles and busy strip, the title that busy replaces, and the alarms that all strip |
| PublicFields.PublicCarries | internal/views/filter.go:163-209 | default-strip: a public event carries an overridden field only if it is kept or replaced, else only the eight defining properties, the six plain ones and, under neither titles nor busy, the details |
| PublicFields.PublicAlarms | internal/views/filter.go:211-237 | it carries an alarm only if the view overrides the rule for alarms, and of it only the four mechanics |
| PublicFields.PublicIsIncluded | internal/views/filter.go:145-224 | every public event shows, field by field, a source event that the flags include, these spelled out by CLASS, STATUS and TRANSP |
| PublicFields.IncludedIsPublic | internal/views/filter.go:48-101 | every source event that the flags include has a public event that shows it, when its series has one master |
| ViewFilter.SanitizeAlarm | internal/views/filter.go:228-237 | a kept alarm is its four mechanics and has no children |
| ViewFilter.FilterProps | internal/views/filter.go:186-209 | the property loop equals `FilteredProps`, whatever the iteration order, with the busy label added when SUMMARY is missing |
| ViewFilter.FilterEvent | internal/views/filter.go:183-224 | the whole event transformation equals `Filtered` |
| ViewPrivacy.FilteredField | internal/views/filter.go:172-209 | an event is filtered to exactly its fields that a rule keeps or replaces or that are one of the eight and not stripped, with their values, but for a replaced title |
| ViewFilter.AddExdate | internal/views/filter.go:113-123 | one EXDATE with the override's RECURRENCE-ID value and the master's TZID is appended |
| ViewFilter.SanitizeId | internal/views/filter.go:125-136 | every character outside letters and digits becomes a dash |
| ViewFilter.SplitSeries | internal/views/filter.go:49-57 | the first component without RECURRENCE-ID is the master, those with one are the overrides, in order |
| ViewFilter.FilterEach | internal/views/filter.go:61-67 | without a recurring master each component is filtered on its own |
| ViewFilter.Reconcile | internal/views/filter.go:72-83 | for an included master, dropped overrides become EXDATEs and the others follow, filtered |
| ViewFilter.Promote | internal/views/filter.go:87-100 | for an excluded master, passing overrides become standalone events with derived UIDs |
| ViewFilter.FilterSeries | internal/views/filter.go:48-101 | the three cases together equal `FilteredSeries` |
| ViewFilter.GroupByUid | internal/views/filter.go:21-32 | groups and their order of first appearance |
| ViewFilter.Apply | internal/views/filter.go:13-42 | the whole view pipeline equals `Applied` |
| ViewPrivacy.FilterRevealsExactly | internal/views/filter.go:183-224 | two events are published alike if and only if they agree on what the rules reveal |
| ViewPrivacy.SanitizedAlarmExact | internal/views/filter.go:226-237 | two alarms are published alike if and only if they agree on the four mechanics |
| ViewPrivacy.SeriesIndistinct | internal/views/filter.go:48-101 | series that are indistinct under a view filter to equal series, EXDATEs and promotions included |
| ViewPrivacy.ApplyNonInterference | internal/views/filter.go:13-42 | calendars indistinct under a view give equal public calendars; of dropped components only the UID, the RECURRENCE-ID and whether there is a rule need agree |
| ViewPrivacy.DroppedDetailsHidden | internal/views/filter.go:13-101 | putting another dropped event of the same place for a dropped one, in whatever series, changes nothing |
| ViewPrivacy.TitlePresenceHidden | internal/views/filter.go:191-209 | with SUMMARY replaced, adding, changing or removing a title changes nothing |
| Instants.ReadProp | internal/ical/ical.go:87-115 | the instants one EXDATE property excludes: split at commas, trimmed, unreadable parts skipped |
| Instants.Exdates | internal/ical/ical.go:85-117 | all EXDATE properties in order |
| Instants.StampExdate | internal/ical/ical.go:94-113 | an EXDATE holding one date or date-time value excludes exactly the instant it reads to |
| Instants.ExdateReads | internal/ical/ical.go:85-117 | an EXDATE property excludes exactly the instants to which the trimmed parts between its commas read, in its own zone if known |
| Instants.TrimExact | internal/ical/ical.go:95-95 | trimming removes the white space at the two ends and no more |
| Instants.ZoneCounts | internal/ical/ical.go:43-74 | a date counts in the default zone, a UTC time in UTC, a local time in the zone it names if that is known |
| Instants.EndStands | internal/ical/parse.go:100-103 | with a DTEND the span reaches to it |
| Instants.DueStands | internal/ical/parse.go:87-112 | a due time stands for the missing start and end of a to-do, and says nothing of an event |
| Instants.ExpandRrule | internal/ical/recur.go:27-57 | the loop over the rule set equals `Expanded` |
| Instants.ExpandedExactly | internal/ical/recur.go:27-57 | expansion lists, ascending, exactly the rule's instants in the half-open window that no EXDATE removes |
| ViewMeaning.KeptMasterGenerates | internal/views/filter.go:72-83 | the kept master generates what it did before, less what the copied EXDATEs read to |
| ViewMeaning.KeptMasterIff | internal/views/filter.go:72-83 | that is what it did before less the dropped overrides' slots if and only if their RECURRENCE-IDs read alike |
| ViewMeaning.PromotedMeaning | internal/views/filter.go:86-100 | for an excluded master the output shows exactly the permitted instances |
| ViewMeaning.IncludedShows | internal/views/filter.go:72-83 | what the output for an included master shows, however its RECURRENCE-IDs are written |
| ViewMeaning.IncludedMeaning | internal/views/filter.go:72-83 | for an included master the output shows exactly the permitted instances, when its dropped overrides read alike |
| ViewMeaning.SeriesMeaning | internal/views/filter.go:44-101 | filtering a series preserves meaning in all three cases |
| ViewMeaning.SeriesMeaningIff | internal/views/filter.go:44-123 | it preserves meaning if and only if the dropped overrides of an included master read alike wherever a reader could tell |
| ViewMeaning.DroppedReadAlike | internal/views/filter.go:111-123 | it is enough that each dropped override reads to one instant in its own zone and in the master's |
| ViewMeaning.UsualFormsReadAlike | internal/views/filter.go:104-123 | so do overrides with the master's TZID, in UTC, or floating under a local DTSTART |
| ViewMeaning.HiddenIffReadAlike | internal/views/filter.go:111-123 | the slot of one dropped override is hidden if and only if its value reads to it under the master's TZID |
| Witnesses.MisreadOverride | internal/views/filter.go:111-123 | a series in two zones whose cancelled instance stays visible and whose other one is lost |
| ViewCalendar.PromotedUidsDistinct | internal/views/filter.go:93-97 | promoted UIDs of one series differ if and only if the RECURRENCE-ID values do |
| ViewCalendar.PromotedUidReads | internal/views/filter.go:93-136 | character by character, the UID of a promotion |
| ViewCalendar.GroupsMeaning | internal/views/filter.go:34-36 | the concatenated groups show exactly what each series permits, when no promoted UID collides |
| ViewCalendar.ApplyMeaning | internal/views/filter.go:13-42 | a public calendar shows exactly the permitted instances of its source |
| ViewCalendar.FilteredIdempotent | internal/views/filter.go:183-224 | filtering an event twice is filtering it once |
| ViewCalendar.ApplyIdempotent | internal/views/filter.go:13-101 | a second pass drops nothing, adds no EXDATE and generates the same zones |
| ViewCalendar.HiddenSeriesTraceless | internal/views/filter.go:13-42 | without a series of which nothing is shown the public calendar is the same, zones included |
| ViewCalendar.HiddenIffAllDropped | internal/views/filter.go:44-101 | nothing of a series is shown if and only if the flags drop each of its components |
| OccurrenceIndex.TimedComponents | internal/ical/ical.go:29-37 | the events and to-dos, in order |
| OccurrenceIndex.CheckComponents | internal/ical/parse.go:42-55 | the first fault found by the loop, or the common UID |
| OccurrenceIndex.Survey | internal/ical/parse.go:56-68 | the recurrence and scheduling flags and the master |
| OccurrenceIndex.Parse | internal/ical/parse.go:28-74 | parsing equals `ParseCalendar`, error by error |
| OccurrenceIndex.ParseAcceptsOneSeries | internal/ical/parse.go:34-55 | accepted if and only if there are components, all of one type and one non-empty UID |
| OccurrenceIndex.ParsedFields | internal/ical/parse.go:39-64 | the recorded type and UID are those of every event and to-do, the flags say whether any recurs or is scheduled |
| OccurrenceIndex.RefusedFor | internal/ical/parse.go:34-55 | a refusal names what is wrong with the first component that does not go with the first one |
| OccurrenceIndex.LeadIs | internal/ical/parse.go:65-71 | the bounds are taken from the first component without RECURRENCE-ID, or the first of all |
| OccurrenceIndex.BoundedIff | internal/ical/parse.go:154-158 | a rule is bounded if and only if COUNT= or UNTIL= stands in it, in any case of letters |
| OccurrenceIndex.KeptExactly | internal/share/share.go:213-224 | an object is kept for a window if and only if the window reaches it: said of start, ends and occurrences, not of the stored bounds |
| OccurrenceIndex.ComputeBounds | internal/ical/parse.go:114-152 | the bounds loop equals `Bounds` |
| OccurrenceIndex.Occurrences | internal/ical/parse.go:215-242 | the starts in a window equal `OccurrencesIn`, from the first component without RECURRENCE-ID |
| OccurrenceIndex.LastInCentury | internal/ical/parse.go:19-23 | an occurrence within the century is not after the last one recorded |
| OccurrenceIndex.ListedOccur | internal/ical/parse.go:215-242 | the listed occurrences are those that start in the window |
| OccurrenceIndex.IndexNeverHides | internal/share/share.go:213-224 | an object is never pruned for a window that one of its occurrences touches, also one that began before the window and still runs |
| OccurrenceIndex.PlainKeptIff | internal/ical/parse.go:140-151 | an object without a rule is kept for every window holding its start if and only if some component ends no earlier than that start |
| OccurrenceIndex.SingleKeptIff | internal/ical/parse.go:140-151 | so a lone event is kept for all its windows if and only if its span is not negative |
| Witnesses.BackwardsPruned | internal/ical/parse.go:140-151 | an event from one o'clock back to midnight that is pruned for a window in which it starts |
| OccurrenceIndex.BoundedLast | internal/ical/parse.go:124-138 | the recorded end of a bounded series is that of its latest start within a hundred years, or of its own start |
| OccurrenceIndex.BoundedKeptIff | internal/ical/parse.go:124-138 | which occurrences past the hundred years a bounded series may have and still be kept, for windows holding a start, for windows touched, and for negative spans |
| Witnesses.PastCenturyPruned | internal/ical/parse.go:19-23 | a bounded series that is pruned for a window in which it occurs |
| OccurrenceIndex.SelectEvents | internal/share/share.go:158-172 | the selection loop equals `Selected` |
| OccurrenceIndex.SelectionKeepsOccurring | internal/share/share.go:158-174 | every event of an object with an occurrence that touches the window reaches the filter |
| ShareRendering.SelectedExactly | internal/share/share.go:157-172 | the selection holds the events of exactly the objects that the window reaches |
| ShareRendering.SharedExactly | internal/share/share.go:149-182 | the events of one calendar in a share show exactly what the objects that the window reaches permit |
| ShareRendering.RowsIndexed | internal/storage/objects.go:198-213 | the rows of a calendar, however listed, are objects with distinct UIDs and the bounds of their bodies |
| ShareRendering.StoreSharedExactly | internal/share/share.go:149-182 | in every reachable store a share of a calendar shows exactly what those of its rows permit whose bodies the window reaches |
| ShareRendering.TouchingObjectShared | internal/share/share.go:149-182 | of an object with an occurrence that touches the window every permitted instance is seen in the share |
| ShareRendering.MasterInstanceOccurs | internal/ical/parse.go:215-242 | an instance of a recurring master, as the filter means it, is an occurrence, as the index means it |
| ShareRendering.MasterInstanceShared | internal/share/share.go:149-182 | every permitted instance of a recurring master that touches the window is seen in the share, as the view presents it |
| ObjectStore.Store.BumpSync | internal/storage/calendars.go:205-216 | the sequence grows by one and the ctag is its decimal form, or the failing statement aborts |
| ObjectStore.Store.PutObject | internal/storage/objects.go:41-133 | the new state is `PutState`, the old one whenever anything fails, and the result says which |
| ObjectStore.Store.DeleteObject | internal/storage/objects.go:217-249 | the new state is `DeleteState`, the old one whenever anything fails |
| ObjectStore.PutVerdict | internal/storage/objects.go:41-79 | without failing statements the verdict on a PUT is decided by a UID held elsewhere, another type at the href and the calendar, in that order; with any it is never accepted |
| ObjectStore.DeleteVerdict | internal/storage/objects.go:217-249 | the same of a DELETE |
| ObjectStore.PutJournals | internal/storage/objects.go:113-121 | a PUT adds one entry: next number, added or modified, href and etag of the new body |
| ObjectStore.DeleteJournals | internal/storage/objects.go:217-249 | a DELETE adds one entry: next number, deleted, href, no etag |
| ObjectStore.DecimalReads | internal/storage/calendars.go:205-216 | the ctag reads back as the sequence number |
| ObjectStore.Store.ChangesSince | internal/storage/objects.go:253-272 | the calendar's changes past a token, in order |
| ObjectStore.PutKeepsInv | internal/storage/objects.go:54-124 | a PUT keeps hrefs and UIDs unique, the stored fields those of the blob, and the journal that of the table |
| ObjectStore.DeleteKeepsInv | internal/storage/objects.go:217-249 | so does a DELETE |
| ObjectStore.RunKeepsInv | internal/storage/objects.go:41-249 | and so does every run, whichever requests fail and wherever |
| ObjectStore.ReachableStore | internal/storage/objects.go:41-272 | from empty calendars on, keys are unique, each row has, column by column, what its body parses to, and the whole journal rebuilds the map |
| ObjectStore.PutWrites | internal/storage/objects.go:81-111 | a successful PUT writes exactly one row, at the href of any row it replaces, whose columns are, one by one, those of the body, and which keeps its creation time |
| ObjectStore.ChangesAreSuffix | internal/storage/objects.go:253-272 | the changes past a token are a suffix of the calendar's journal |
| ObjectStore.JournalReplay | internal/storage/objects.go:253-272 | replaying the changes since a state gives the current map, and they are numbered s+1 to the current number |
| ObjectStore.EveryNumberWasCurrent | internal/storage/calendars.go:205-216 | a run passes through every sequence number between its ends |
| ObjectStore.ReplayFromAnyToken | internal/storage/objects.go:253-272 | from the map of any moment at which a token was current, the changes since lead to the current map |
| ObjectStore.TypeConstant | internal/storage/objects.go:65-79 | between its added and deleted entries an object keeps its component type |
| ObjectStore.JournalIsRounds | internal/storage/objects.go:113-121 | an href's journal is (added modified* deleted)*, open at the end exactly when an object is present |
| FeedMirror.SanitizeHref | internal/sources/poller.go:255-270 | characters outside the allowed set become dashes, an empty result becomes `object` |
| FeedMirror.HrefCharacters | internal/sources/poller.go:255-270 | a href has each letter, digit, dash, underscore and dot of the UID in its place and a dash for any other character; the empty UID gives `object` |
| FeedMirror.SameHrefIff | internal/sources/poller.go:255-270 | two UIDs share a href if and only if they have one length and differ only where both show a dash |
| FeedMirror.GroupByUid | internal/sources/poller.go:178-192 | the events of each non-empty UID, in order |
| FeedMirror.ResourceHolds | internal/sources/poller.go:206-212 | the resource of a UID holds its events in order behind every resolvable zone that they name |
| FeedMirror.EmittedParses | internal/sources/poller.go:206-216 | the emitted resource of a feed UID parses to an event with that UID |
| FeedMirror.MirrorPutAccepted | internal/sources/poller.go:217-220 | in a mirror, storing it meets no UID conflict and no type swap |
| FeedMirror.PutFeed | internal/sources/poller.go:201-221 | after the upserts, in every order and with any of them failing, what could be stored is in its place and nothing is lost |
| FeedMirror.DeleteUnseen | internal/sources/poller.go:223-231 | only objects at unseen hrefs go, and all of them whose deletion does not fail |
| FeedMirror.Sync | internal/sources/poller.go:172-233 | whichever statements fail, a mirror stays a mirror and no object at a feed href is lost; without faults it becomes the mirror of the feed with no refusal; an empty feed changes nothing; other calendars keep their objects |
| FeedMirror.SyncedRows | internal/sources/poller.go:172-233 | every object of a synced calendar is a feed resource |
| FeedMirror.OneObjectPerUidIff | internal/sources/poller.go:201-204 | every feed UID has its object if and only if no two of them have one length and differ only where both show a dash |
| FeedMirror.OneObjectPerUid | internal/sources/poller.go:201-231 | a synced calendar whose feed UIDs hold allowed characters only has exactly one object for each UID and no other |
| FeedMirror.SharedHref | internal/sources/poller.go:255-270 | two distinct UIDs with one href |
| MailQueue.Sender.EnqueueImip | internal/storage/scheduling.go:183-199 | a pending row with no attempts is appended, unless its Message-ID is taken |
| MailQueue.Sender.DueImip | internal/storage/scheduling.go:203-231 | the due rows, oldest first, cut at the limit |
| MailQueue.DueListed | internal/storage/scheduling.go:203-210 | a message is listed if and only if it is neither sent nor given up and its next attempt is not in the future |
| MailQueue.DueFromEnqueue | internal/storage/scheduling.go:183-199 | a new message is due from its enqueueing on |
| MailQueue.Sender.HandleFailure | internal/imip/sender.go:114-122 | the fifth failure is final, an earlier one is retried after 2^attempts minutes |
| MailQueue.Sender.SendOne | internal/imip/sender.go:79-86 | one attempt counts once: sent, to be retried or given up |
| MailQueue.Sender.DrainQueue | internal/imip/sender.go:72-88 | a drain attempts the batch once each and returns how many were delivered |
| MailQueue.DueAgainIff | internal/imip/sender.go:79-122 | after a failure at an instant a message with k < 4 earlier attempts is due if and only if 2^k minutes have passed since; once sent or failed five times never again |
| MailQueue.RetriesWait | internal/imip/sender.go:114-122 | in every reachable queue the time set for a retry is 2^(k-1) minutes after the latest of k failures |
| MailQueue.RunKeepsInv | internal/imip/sender.go:72-122 | every run keeps counts, log and spacing of attempts consistent |
| MailQueue.ReachableQueue | internal/imip/sender.go:72-122 | pending has 0 attempts, retry 1 to 4, final 5, sent 1 to 5, and a message is delivered once if sent and never otherwise |
| MailQueue.GivesUpLate | internal/imip/sender.go:114-122 | permanent failure comes no sooner than 15 minutes after the first failure |
| MailQueue.FinishedIsAbsorbing | internal/storage/scheduling.go:203-255 | sent and finally failed messages never change again |
| MailQueue.PassedOverBatch | internal/storage/scheduling.go:207-210 | a due message is passed over only behind a full batch of older ones |
| MailQueue.NoStarvation | internal/imip/sender.go:72-88 | a message with k older ones is passed over while due by at most 5k/20 drains |
| MailQueue.DueIsAttempted | internal/imip/sender.go:72-88 | a message that stays due is attempted within any run with more than 5k/20 drains, however much mail arrives meanwhile |
| MailQueue.DueAtMost | internal/imip/sender.go:72-122 | over its whole life a message with k older ones is due at no more than 5 + 5k/20 drains |
| MailQueue.FinishedInTime | internal/imip/sender.go:72-122 | so any run with more drains at which it is due, or already finished, ends with it sent or given up |
| MailQueue.EveryMessageEnds | internal/imip/sender.go:72-122 | from any reachable queue a message with k older ones is sent or given up by a run of more than 5 + 5k/20 drains, none earlier than the time then set for it |
| MailQueue.QueueEnds | internal/imip/sender.go:72-122 | so all messages of a queue end together |
| Scheduling.StripServerParams | internal/scheduling/itip.go:56-66 | the three server parameters are gone from every property |
| Scheduling.CloneEvent | internal/scheduling/itip.go:36-48 | a clone has the stripped properties and no alarms |
| Scheduling.CloneCalendar | internal/scheduling/itip.go:23-34 | the events are cloned in order under a METHOD header |
| Scheduling.BuildRequest | internal/scheduling/itip.go:86-92 | the built message equals `Request` |
| Scheduling.RequestZones | internal/scheduling/itip.go:86-92 | the events keep their order behind the VTIMEZONE of every resolvable zone they name |
| Scheduling.RequestSends | internal/scheduling/itip.go:23-92 | an invitation has the method REQUEST and sends every property, parameter and child of the events but the alarms and the three server parameters |
| Scheduling.MasterEvent | internal/scheduling/scheduler.go:259-271 | the first event without RECURRENCE-ID, else the first event |
| Scheduling.MasterIndexIs | internal/scheduling/scheduler.go:259-271 | the index found is that of the first event without RECURRENCE-ID, or of the first event if each has one |
| Scheduling.WriteScheduleStatus | internal/scheduling/scheduler.go:126-148 | exactly the attendee lines with a status are annotated, on the master only |
| Scheduling.Deliver | internal/scheduling/scheduler.go:90-106 | a local mailbox, the mail queue or nothing, with the status that goes with it |
| Scheduling.OnPut | internal/scheduling/scheduler.go:42-122 | the stored event, the attendee rows, the mailboxes reached and the mail queued after a pass, also one that fails at an attendee |
| Scheduling.FailedPassDid | internal/scheduling/scheduler.go:71-110 | a pass that fails has done what a pass over the attendees before does, and the delivery too if it is the row that failed |
| Scheduling.ReachedAsAsked | internal/scheduling/scheduler.go:71-103 | each address is reached once per line that asks for it, by mailbox or by mail, and the organizer never |
| Scheduling.RowsOfInvited | internal/scheduling/scheduler.go:77-110 | the rows written are those of the invited, each from the last line for its address |
| Scheduling.RowOfLastLine | internal/scheduling/scheduler.go:77-110 | column by column, the row of an address says what the last line for it asks for: name, role, answer or NEEDS-ACTION, whether local, status and time |
| Scheduling.StatusAgreesIff | internal/scheduling/scheduler.go:104-133 | a line of the stored event and the attendee's row say the same if and only if, for an address delivered for, the last line asks for delivery, and for any other, the line carried no status before |
| Witnesses.StaleStatusStays | internal/scheduling/scheduler.go:104-133 | a client-managed line keeps the 1.1 of an earlier delivery while the row says nothing |
| Witnesses.LastLineManaged | internal/scheduling/scheduler.go:104-133 | an address with a delivered line and a client-managed one after it: 1.1 on the line, nothing in the row |
| Scheduling.RowsConverge | internal/scheduling/scheduler.go:92-110 | after a pass that failed anywhere, one that succeeds leaves the rows it would have left alone |
| Scheduling.AnnotationInvisible | internal/scheduling/scheduler.go:116-148 | whatever statuses are written, invitations built from the event are unchanged |
| Scheduling.OnPutInvisible | internal/scheduling/scheduler.go:42-122 | the invitation after a scheduling pass is the one before it |
| Scheduling.OnPutIdempotent | internal/scheduling/scheduler.go:42-122 | a second pass finds the same attendees and writes the same event |
| Scheduling.NormalizedIdempotent | internal/storage/scheduling.go:10-10 | normalising an address twice is normalising it once |
| Scheduling.NormalizedExact | internal/storage/scheduling.go:10-10 | it trims and writes capitals small and does nothing else |
| Scheduling.SpacesAre | internal/storage/scheduling.go:10-10 | what trimming takes for white space, by code point |
| Scheduling.MailtoReads | internal/imip/reply.go:149-155 | `mailto:` plus an address reads back as the normalised address |
| Scheduling.MailtoForms | internal/scheduling/util.go:29-35 | the scheme may be written in any case, and need not be there |
| Replies.BuildReply | internal/scheduling/itip.go:112-140 | the built reply equals `Reply` |
| Replies.ReplyReads | internal/imip/reply.go:46-81 | a built reply is read as the attendee's answer if and only if the event has a UID, lists the attendee, and neither address nor status is blank |
| Replies.ReplyRoundTrip | internal/scheduling/scheduler.go:229-257 | applying the built reply changes the attendee's row only, and as the local response does |
| Replies.Receiver.ApplyReply | internal/imip/reply.go:46-105 | the tables and the outcome after a message are those of `Applied` |
| Replies.Unapplied | internal/imip/reply.go:46-92 | a message that is no REPLY, or reads as none, is malformed, one for an unknown event or attendee matches nothing, and neither changes a table |
| Replies.ObjectFound | internal/imip/reply.go:83-86 | the event found for a UID is the first in id order |
| Replies.OrganizerGetsReply | internal/imip/reply.go:93-105 | a reply that is applied, or given here, is deposited whole in the organizer's inbox and no other inbox row changes |
| Replies.Receiver.UpdateAttendeePartstat | internal/storage/scheduling.go:88-100 | one row is updated, or not found |
| Replies.Receiver.Process | internal/imip/receiver.go:130-150 | a Message-ID already recorded is skipped, any other message is applied and recorded |
| Replies.ProcessedOnce | internal/imip/receiver.go:130-150 | a new Message-ID is recorded with its outcome, a known one changes nothing, a message without one is applied each time |
| Replies.Receiver.RespondLocal | internal/scheduling/scheduler.go:229-257 | the tables after a local response are those of `Responded` |
| Replies.RepeatsHaveNoEffect | internal/imip/receiver.go:130-150 | any sequence of deliveries ends as the one with repeated Message-IDs removed |
| TransitionTable.BinarySearch | internal/ical/vtimezone.go:183-195 | the result is within a second of an instant with the old offset and has left it, after at most 15 halvings |
| TransitionTable.SearchFinds | internal/ical/vtimezone.go:181-195 | cut to the second, the result is the change |
| TransitionTable.DetectTransitions | internal/ical/vtimezone.go:150-179 | every change in the sampled range is listed once, ascending, with the offsets on its two sides |
| TransitionTable.TableIsZone | internal/ical/vtimezone.go:150-179 | the list reconstructs the offset at every instant of the sampled range |
| TransitionTable.EntriesChain | internal/ical/vtimezone.go:164-174 | each entry starts from the offset at which the one before it ends |
| TransitionTable.RuleStartIsChange | internal/ical/vtimezone.go:214-219 | a rule's DTSTART is the change instant on a clock in the old offset |
| YearlyRule.NextDayCounts | internal/ical/vtimezone.go:237-237 | day numbers, weekdays and the day before follow the Gregorian calendar |
| YearlyRule.SelectsExactlyOne | internal/ical/vtimezone.go:242-242 | a rule with ordinal 1 to 4 or -1 selects exactly one day in every year |
| YearlyRule.RuleDenotesDate | internal/ical/vtimezone.go:233-243 | the rule of a date has such an ordinal and selects that date in its year |
| LineFolding.FoldLine | internal/ical/emit.go:40-56 | the byte loop with its column counter equals `FoldedLine` |
| LineFolding.SplitLines | internal/ical/emit.go:39-39 | the data splits at the CRLFs found from the left |
| LineFolding.FoldLines | internal/ical/emit.go:33-65 | the whole pass, with trailing blank lines trimmed, equals `Folded` |
| LineFolding.PhysicalLinesFit | internal/ical/emit.go:30-57 | every physical line has at most 75 octets |
| LineFolding.FoldedLate | internal/ical/emit.go:44-56 | a line is cut only where the sequence that follows would pass the seventy-fifth octet, so each physical line but the last has at least 72 |
| LineFolding.ContinuationMarked | internal/ical/emit.go:48-51 | every continuation line begins with a space |
| LineFolding.SequenceEncodes | internal/ical/emit.go:47-47 | the sequences kept whole are encodings of code points of section 3 of RFC 3629 |
| LineFolding.EncodingStarts | internal/ical/emit.go:47-47 | and every such encoding is kept whole |
| LineFolding.NoSequenceSplit | internal/ical/emit.go:46-55 | no fold falls inside a well-formed UTF-8 sequence, whatever other bytes the line holds |
| LineFolding.FoldIdempotent | internal/ical/emit.go:33-65 | folding what is folded changes nothing |
| LineFolding.UnfoldInvertsFold | internal/ical/emit.go:33-65 | unfolding gives back the data, up to the blank lines trimmed at its end |
| LineFolding.RoundTripIff | internal/ical/emit.go:33-65 | it gives back the data itself if and only if the data ends in exactly one CRLF and no CRLF is followed by a space |
| RateLimiter.Compact | internal/share/ratelimit.go:29-34 | filtering into the head of the same array keeps the late times, in order |
| RateLimiter.Append | internal/share/ratelimit.go:43-43 | the time is appended in place or in a larger array |
| RateLimiter.Limiter.Allow | internal/share/ratelimit.go:23-46 | the verdict is that of the requests served so far, and no other token's entry or buffer changes |
| RateLimiter.RefinesIff | internal/share/ratelimit.go:23-46 | over all runs, any number of requests per tick of the clock, the verdicts are those of the unbounded history if and only if the clock never goes back |
| RateLimiter.RefinesHistory | internal/share/ratelimit.go:27-45 | a request is admitted if and only if fewer than max admitted requests of its token lie in (now-window, now] |
| RateLimiter.ClockGoingBackAdmits | internal/share/ratelimit.go:27-45 | for every limit above one and every window, a clock that goes back can admit more than max in a window |
| RateLimiter.ClockGoingBackRefuses | internal/share/ratelimit.go:27-45 | for every limit, a request at any instant before that of a full burst is refused although its window holds no admission |
| RateLimiter.WindowNeverOverfull | internal/share/ratelimit.go:8-9 | no window, wherever it ends, holds more than max admitted requests |
| RateLimiter.WaitIsExact | internal/share/ratelimit.go:35-41 | whatever is asked meanwhile, a retry is admitted if and only if the stated wait has passed |
| RateLimiter.TokensIndependent | internal/share/ratelimit.go:28-44 | a token's entry depends on its own requests alone |
| PollBackoff.IntervalExact | internal/sources/poller.go:101-118 | for every positive base and failure count, the interval is min(24h, base * 2^failures) if and only if the low 64 bits of the shifted base allow it |
| PollBackoff.FormulaHoldsIff | internal/sources/poller.go:101-118 | for a positive base it is so for all failure counts if and only if it is for the first 22 |
| PollBackoff.MonotoneIff | internal/sources/poller.go:109-117 | more failures never shorten the wait if and only if the first 20 shifts are represented |
| PollBackoff.SmallBaseIff | internal/sources/poller.go:109-117 | below 2^43 ns the wait never shrinks, and the formula holds if and only if the base reaches 24 hours by the cut at 20 |
| PollBackoff.WholeMinutesIff | internal/web/sources_handlers.go:44-49 | for the whole minutes that the forms store the formula holds if and only if they are at most a day |
| PollBackoff.TwoDaysShrink | internal/sources/poller.go:106-117 | a feed set to two days waits less after a failure than before it |
| PollBackoff.WrapShortensBackoff | internal/sources/poller.go:113-117 | a configured default whose wait shrinks below the default itself at 18 failures |
| PollBackoff.StateRemembersPolls | internal/sources/poller.go:122-168 | the fail count is the failures in a row at the end of the poll history, and the poll time that of its last poll |
| PollBackoff.NextPoll | internal/sources/poller.go:68-97 | over any run of sweeps a feed is polled exactly when the formula for its failures in a row has passed |
| PollBackoff.NoFeedNoPoll | internal/sources/poller.go:90-93 | a calendar without a feed address is never polled |
| PollBackoff.NextPollInMinutes | internal/sources/poller.go:68-97 | so is every feed set to between one minute and a day |

## Left out

- Property parameters and aliasing: components are values, so a nil and an empty parameter map are the same,
  and sub-components that the source shares between input and output are equal rather than identical.
- SetText escaping: replacement texts are stored as they are.
- Scheduling.NormalizedIdempotent: letter case covers ASCII and trimming the spaces up to Latin-1, because
  the Unicode tables are data of the Go library.
- Scheduling.NormalizedExact: the same letters and spaces.
- go-ical encoding and decoding, rrule expansion, SHA-256, tzdata: parameters, with the assumptions named above.
- Statement faults in the store abort with one error; which SQL error it was is not modelled. Only one
  transaction runs at a time.
- Scheduling.OnPut: a request that cannot be encoded ends the pass before it does anything and is left out,
  as are the inbox href, the Message-ID and the body of each delivery, and a failing store of the annotated
  event, which the source ignores.
- Scheduling.ReachedAsAsked: counts deliveries, of which a mailbox that is written to twice for one message
  keeps one row.
- ObjectByUID, CalendarOwner failures and OnDelete: lookups and plain inserts.
- BuildCancel and bumpSequence: a clone with two properties set.
- OnPut's re-stored object has a new ETag, which the reply to the PUT does not carry.
- TransitionTable.DetectTransitions: the isDST and name fields of an entry are left out, one a heuristic and
  the other a text that the zone supplies.
- formatOffset and vtimezoneFor's choice of entries and cache: text formats and a cache.
- The sampled range ends at the last full six-hour step before its end; later changes are not looked for.
- Queue rows are positions in a sequence, which stand for ascending ids; due times are compared as instants,
  not as texts; one drainer runs at a time and its status writes succeed.
- RANGE=THISANDFUTURE, masters with RDATE but no RRULE, and overrides with their own RRULE, RDATE or EXDATE.
- Masters whose filtered DTSTART is not kept: view overrides name managed fields only, as the web form ensures
  (internal/web/views_handlers.go:198-218).
- Bounds widened by overrides of recurring masters: the source does not widen them.
- Free-busy for events that began before the window: the source tests starts only.
- Saturation of very distant instants when subtracting times, and fail counts beyond 2^63.
- RateLimiter.Limiter.Allow: requires a limit of at least one, as the only constructor call passes 60; below
  that the source reads the first element of an empty slice. The mutex is one call at a time.
- Canonicalize, PRODID insertion, NormalizeFeedURL, HTTP, SMTP, IMAP, MIME, templates, accounts, tokens and
  settings: easy members or plumbing.
