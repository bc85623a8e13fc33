# MouseTools `parks.py` — a Dafny model of its pure rules

`parks.py` defines a `Park` object over a theme-park data service. Its
constructor checks the `id` / `park_name` arguments against the park
directory. This directory is a name -> id dictionary loaded once per process.
The constructor then fetches the park's descriptor document and keeps its fields.
The object's accessors fetch schedules, advisories and wait times and reshape
them.

This project lifts the rules inside those methods out as total functions:

- identifier resolution, with its three error outcomes (`Resolution`, over the
  ordered directory of `Directory`);
- building the park record from the descriptor, including the flattening of the
  `links` section (`Parks`);
- `__formatDate` and the `YYYY-MM-DD` key for today (`Dates`, on top of
  `Decimal`, which models `str()` and `int()` on natural numbers);
- today's hours selection in `getTodayParkHours` (`Hours`);
- wait-time filtering in `getCurrentWaitTimes` (`WaitTimes`);
- advisory name normalisation and collection in `getParkAdvisories`
  (`Advisories`, over the last-write-wins dictionary builder of `Assoc`).

Every HTTP response enters as an already-parsed Dafny value. A request whose
URL depends on the data is a function parameter: `descriptorFor` takes the
resolved id, and `detailAt` takes an advisory's self link. Today's date is the
parameter `today`. The `print` + `sys.exit()` handlers become the `Failure` of a
`Result`.

Two facts about the constructor shape the model:

- Passing both `id` and `park_name` is accepted, and the name wins: a given
  name replaces the id before the scan (parks.py:29-30).
- There are three distinct failure kinds, one per exception handler:
  `KeyError`, `ValueError` and `TypeError` (parks.py:42-52).

One observation about identifier resolution: when two directory names share an
id, constructing by the second name stores the first name. The stored name is
always the first key in directory order with the resolved id (`Resolve`,
`ResolveRoundTrip`).

## Model

| member | source | states |
|---|---|---|
| Directory.Lookup | parks.py:29-30 | `park_ids[name]` is absent exactly when no entry has that key; otherwise it is the id stored in the entry with that key |
| Directory.FirstNameFor | parks.py:32-37 | the scan yields nothing exactly when no entry carries the id; otherwise it yields the name of the first entry, in directory order, that carries the id |
| Resolution.ResolveId | parks.py:32-39 | resolving an id succeeds exactly when some entry carries it; it keeps that id and the name of the first entry, in directory order, that carries it; otherwise it fails with not-found |
| Resolution.Resolve | parks.py:19-39 | invalid-argument exactly when both arguments are absent; type error exactly when not both are absent and one is a non-string; on success the pair is the first directory entry carrying the id; a given name's lookup is the resolved id; with no name the resolved id is the given id |
| Resolution.NameOverridesId | parks.py:29-30 | with a name given, any string id passed alongside it is discarded |
| Resolution.ArgumentErrorsIgnoreDirectory | parks.py:21-26 | the invalid-argument and type errors come out the same for every directory, so no lookup decides them |
| Resolution.ResolveByNameSucceedsIff | parks.py:29-39 | resolving by name succeeds exactly when the name is a directory key; otherwise it is not-found |
| Resolution.ResolveByIdSucceedsIff | parks.py:32-39 | resolving by id succeeds exactly when the id is one of the directory's values |
| Resolution.ByNameSameAsById | parks.py:29-39 | resolving by a known name equals resolving by the id stored under it |
| Resolution.ResolvedNameMapsToId | parks.py:32-37 | `park_ids[resolved name] == resolved id` |
| Resolution.ResolveRoundTrip | parks.py:19-39 | a resolved park resolves again to itself, both by its id and by its name |
| Assoc.Build | parks.py:59-61 | repeated `d[k] = v`: the keys are exactly the keys assigned, and each holds the value of the last pair with that key |
| Assoc.BuildDistinct | parks.py:61 | with no repeated key every pair survives unchanged |
| Parks.FlattenLinks | parks.py:59-62 | one key per relation in `links`; each key maps to the `href` of an entry of that relation, and to that relation's own `href` when, as in any JSON object, relations are distinct |
| Parks.Construct | parks.py:19-70 | construction fails exactly when resolution fails, with the same error; on success the park keeps the resolved pair, and every other field comes from the descriptor fetched for the resolved id |
| Parks.FailsBeforeFetch | parks.py:19-56 | a failed construction does not depend on what the descriptor request would return |
| Parks.ConstructByNameSameAsById | parks.py:29-70 | constructing by a known name gives the same park as constructing by its id |
| Advisories.ReplaceChar | parks.py:140 | single-character `str.replace`: same length, each matching character replaced, all others unchanged |
| Advisories.NormaliseName | parks.py:140 | same length; U+2019 becomes `'`, U+2013 becomes `-`, every other character is unchanged; neither U+2019 nor U+2013 remains |
| Advisories.NormaliseIdempotent | parks.py:140 | normalising twice equals normalising once |
| Advisories.NormaliseAroundMarks | parks.py:140 | plain text around one U+2019 and one U+2013 comes out with `'` and `-` in their places |
| Advisories.CollectAdvisories | parks.py:135-140 | one key per advisory id; each holds the normalised name from the last detail document with that id; no value contains U+2019 or U+2013 |
| Advisories.ParkAdvisories | parks.py:128-144 | following each stub's self link in order: the keys are exactly the ids of the detail documents fetched; each holds the normalised name of the last document with that id; no value contains U+2019 or U+2013 |
| Dates.PadTwo | parks.py:167-170 | the input is a suffix of the output; a single `'0'` is prepended exactly when the input is shorter than 2; a non-empty input yields at least 2 characters |
| Dates.FormatDate | parks.py:163-171 | month and day are each zero-padded in that way, and each is at least 2 characters long when non-empty |
| Dates.ZeroPaddedUnique | parks.py:163-171 | the padding description determines the result completely |
| Dates.PadTwoIdempotent | parks.py:167-170 | padding twice equals padding once exactly for non-empty inputs |
| Dates.PaddedNumberRoundTrip | parks.py:109-119 | `int(MONTH)` after padding `str(month)` gives back the month, and likewise for the day |
| Dates.DateKey | parks.py:108-117 | for a calendar date with a four-digit year, the key is `YYYY-MM-DD`, and its three fields read back as the year, month and day |
| Decimal.FromNat | parks.py:108 | `str(n)` is a non-empty digit string, with a leading zero only for `0` |
| Decimal.ToNat | parks.py:119 | `int(s)` of an n-digit string is below 10^n, and at least 10^(n-1) when the first digit is not `'0'` |
| Decimal.ToNatFromNat | parks.py:108-119 | `int(str(n)) == n` |
| Decimal.FromNatToNat | parks.py:108-119 | `str(int(s)) == s` for every digit string without a leading zero |
| Decimal.ToNatLeadingZero | parks.py:168-170 | a prepended `'0'` does not change the value `int` reads |
| Hours.HourOf | parks.py:119 | `int(t[0:2])` is the two hour digits read as tens and units, below 100 |
| Hours.MinuteOf | parks.py:119 | `int(t[3:5])` is the two minute digits read as tens and units, below 100 |
| Hours.StampAt | parks.py:119-124 | the timestamp carries today's year, month and day, read back from the formatted strings, and the entry's hour and minute |
| Hours.LastSelected | parks.py:116-118 | none exactly when no entry is dated today with the type; otherwise it is the index of such an entry with none after it |
| Hours.Window | parks.py:116-124 | a type's (start, end) is absent exactly when no entry dated today has that type; otherwise both come from the last such entry |
| Hours.WindowStep | parks.py:116-124 | one more scanned entry replaces the window when it is selected and keeps it otherwise |
| Hours.TodayParkHours | parks.py:111-126 | the loop returns the operating window and the Extra Magic Hours window, each from the last entry of its type dated today |
| Hours.IgnoredEntry | parks.py:117-122 | an entry not dated today, or of another type, changes nothing |
| Hours.LaterEntryWins | parks.py:116-124 | a later entry of a type, dated today, overwrites that type's window and leaves the other type's window alone |
| Hours.SingleOperatingEntry | parks.py:111-126 | one operating entry and no Extra Magic Hours entry give that entry's window, with both extra values absent |
| Hours.NineToTen | parks.py:119-120 | "09:00" to "22:00" gives 9:00 and 22:00 today |
| WaitTimes.CurrentWaitTimes | parks.py:154-157 | a name is a key exactly when some entry with that name has a posted wait; its value is the posted wait of the last such entry |
| WaitTimes.EntryWithoutPostedWaitOmitted | parks.py:154-157 | with one posted entry and one unposted entry, only the posted one appears |
| WaitTimes.LaterPostedWaitWins | parks.py:156-157 | a later posted wait for a name overwrites the earlier one |
| WaitTimes.UnpostedEntryIgnored | parks.py:156 | an entry without a posted wait changes nothing |

## Left out

- Network requests are not modelled (parks.py:8, 56, 105, 138, 151). This covers `requests.get`, `getHeaders()` from the `auth` module, and the module-level directory fetch. Their parsed results are parameters. `auth.py` is not part of this model.
- JSON handling is not modelled. `json.loads` and `json.dumps` (parks.py:57, 62, 142, 159) are library serialisation. The model returns Dafny maps where the source returns JSON text.
- `datetime.today()` is a clock, so today's date is the parameter `today`. The source reads the clock three times: `.year` at parks.py:108, then `.month` and `.day` at parks.py:109. Across midnight it can build a mixed key, for example "YYYY-01-01" from a month read on 31 January and a day read on 1 February. Such a key matches no entry, and all four results are `None`. The model reads one consistent date, so it cannot produce that outcome.
- Hours.StampAt: does not model the range checks that `datetime(...)` makes on hour, minute and day, because that is library date validation. An out-of-range time such as "25:00" raises in the source but yields a stamp here.
- Hours.IsClockTime: `int()` also accepts surrounding whitespace and a sign. The model requires plain digits at positions 0, 1, 3 and 4. Malformed times, which raise in the source, are excluded by the `TimesReadable` precondition, and only entries the loop actually parses are constrained.
- Missing JSON keys are not modelled. A missing `schedules`, `date`, `type`, `startTime`, `entries`, `waitTime`, `name`, `links`, `href`, `webLinks.wdwDetail.href`, `id` or advisory `links.self.href` raises `KeyError` in the source. The model's record types make those fields always present.
- WaitTimes.CurrentWaitTimes: a `postedWaitMinutes` value is modelled as an integer. A JSON `null` or non-integer value is not distinguished.
- The `print` calls and `sys.exit()` in the exception handlers (parks.py:42-52) are output and process exit. They become the `Failure` value of `Resolve` and `Construct`.
- The progress message printed by `getParkAdvisories` (parks.py:134) is console output and is dropped.
- `__str__` (parks.py:174-175) reads `self.park_name`, which the constructor never sets. Its stored field is the name-mangled `__park_name`. This is console-facing code with no contract.
- `getParkIDS` and `getLinks` (parks.py:72-96) only return stored state. `getLinks` returns `Park.links`.
