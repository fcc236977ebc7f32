/** The plugin's calendar registry (src/main.ts:29-42): `data.calendars`, an
    object keyed by each calendar's `icsName`. Persisting the settings
    afterwards (`saveSettings`) is I/O and is not modelled. */
module Registry {

  /** A configured calendar feed: its display name and the URL of its ICS file. */
  datatype Calendar = Calendar(icsName: string, icsUrl: string)

  type Calendars = map<string, Calendar>

  /** addCalendar: the registry with `c` stored under its name, replacing any
      calendar of the same name. */
  function AddCalendar(cals: Calendars, c: Calendar): (r: Calendars)
    ensures r.Keys == cals.Keys + {c.icsName}
    ensures r[c.icsName] == c
    ensures forall k :: k in cals && k != c.icsName ==> r[k] == cals[k]
  {
    cals[c.icsName := c]
  }

  /** removeCalendar: the registry without the entry named like `c`; only the
      name is consulted, and an absent name leaves the registry as it was. */
  function RemoveCalendar(cals: Calendars, c: Calendar): (r: Calendars)
    ensures r.Keys == cals.Keys - {c.icsName}
    ensures forall k :: k in r ==> r[k] == cals[k]
    ensures c.icsName !in cals ==> r == cals
  {
    if c.icsName in cals then cals - {c.icsName} else cals
  }

  /** Adding a calendar under a fresh name and removing it again restores the registry. */
  lemma RemoveUndoesAdd(cals: Calendars, c: Calendar)
    requires c.icsName !in cals
    ensures RemoveCalendar(AddCalendar(cals, c), c) == cals
  {
    var r := RemoveCalendar(AddCalendar(cals, c), c);
    assert r.Keys == cals.Keys;
  }

  /** Removal is idempotent. */
  lemma RemoveIdempotent(cals: Calendars, c: Calendar)
    ensures RemoveCalendar(RemoveCalendar(cals, c), c) == RemoveCalendar(cals, c)
  {
  }

  /** Adding the same calendar twice is the same as adding it once, and the
      later of two same-named calendars wins. */
  lemma AddOverwrites(cals: Calendars, c: Calendar, d: Calendar)
    requires c.icsName == d.icsName
    ensures AddCalendar(AddCalendar(cals, c), d) == AddCalendar(cals, d)
  {
  }

  /** Removing by name after adding any same-named calendar removes the name,
      whatever the registry held before. */
  lemma RemoveAfterAdd(cals: Calendars, c: Calendar)
    ensures RemoveCalendar(AddCalendar(cals, c), c) == RemoveCalendar(cals, c)
  {
    assert RemoveCalendar(AddCalendar(cals, c), c).Keys == RemoveCalendar(cals, c).Keys;
  }
}
