# m3terscan dashboard data: a Dafny model

This project models two parts of the m3terscan dashboard.

**Mock generators.** These functions in the block store turn block records
(`{meterId, date}`) into the series the dashboard charts:
- the rolling 90-day heatmap, newest day first, one cell per matching block;
- the full-year heatmap, one cell per day per meter, with synthetic intensity on days without blocks;
- the 24-hour energy series per meter;
- the per-meter stablecoin table.

**Activity store.** It holds the activity feed. At load time it does three things:
- It converts each record's 12-hour time (`hh:mm AM`) to a 24-hour clock.
- It sorts the seed records in place, newest first, by the instant of their date and time.
- It adds each record's age at the current instant: `hoursAgo` and a phrase such as `3 hours ago`.

It also stores the selected feed filter, which starts as `"All"`.

The project has five modules:
- `Text` (`text.dfy`): JavaScript's `String(n)`, `padStart`, `parseInt`, `split` and `join` on strings.
- `Seqs` (`seqs.dfy`): `Array.prototype.reverse` and `Array.prototype.filter` on lists of any element type, with the facts about which elements a filter keeps.
- `Calendar` (`calendar.dfy`): proleptic Gregorian days numbered from 1970-01-01. It covers stepping a `Date` by one day, `getDay`, `toISOString().split("T")[0]` and reading `YYYY-MM-DD` back.
- `MockGenerators` (`mock_generators.dfy`): the four generators. Each one is a method with the source's loop, proved equal to a specification function. Lemmas state what the rows are.
- `ActivityStore` (`activity_store.dfy`): time conversion, age, the in-place insertion sort over an `array`, the enrichment, and the `Store` class holding `activities` and `filter`.

The generators' random draws are parameters of the model:
- the synthetic intensity of a day without blocks;
- each energy reading;
- each stablecoin value.

So are the current day and the current instant. Days and instants are in one time zone. `meterId` set to `""` stands for an absent meter filter, because both are falsy in JavaScript.

Two points fix the scope:
- **Store filtering.** The store does no threshold filtering by `hoursAgo`; it only records the selected filter string. The activities page turns that string into an hour limit and keeps records with `hoursAgo <= limit`. `app/m3ters/[m3terId]/activities/page.tsx` is not part of this model.
- **Error branches.** The `catch` branches of `convertTo24Hour` (`app/stores/activityStore.ts`, lines 67-70) and `parseTimeAgo` (lines 44-50) state the intended fallbacks: `00:00:00` for a time that cannot be converted, and an infinite age with `Unknown time ago` for a date and time that cannot be read. The code never reaches them, because `parseInt` and `new Date` give NaN and an invalid date instead of throwing (see Findings). Here the model departs from the code as written. The rest of the model uses the catch branches' fallbacks. The as-written behaviour is modelled beside them (`ConvertTo24HourAsWritten`, `ParseTimeAgoAsWritten`), with lemmas that compare the two.

## Model

| member | source | states |
|---|---|---|
| Text.IntToString | app/stores/activityStore.ts:63 | `String(n)` is non-empty and starts with a digit or a minus sign; IntToStringRoundTrip states that `parseInt` reads every integer back |
| Text.IntToStringRoundTrip | app/stores/activityStore.ts:57-58 | `parseInt(String(n))` is `n` for every integer, negative ones included |
| Text.PadStart | app/stores/blockStore/utils/mockGenerators.ts:20 | `padStart(width, fill)` has length `max(|s|, width)`; PadStartShape states it is fill characters then `s`, and PadRoundTrip that a padded number reads back |
| Text.ParseInt | app/stores/activityStore.ts:57-58 | `parseInt(s, 10)`, `None` for NaN; ParseIntOfDigits, ParseIntOfPad and IntToStringRoundTrip state what it reads from digits, padded numbers and `String(n)` |
| Text.Split | app/stores/blockStore/utils/mockGenerators.ts:89 | `split(sep)` gives at least one piece; SplitPieces states no piece holds the separator, and SplitJoin and JoinSplit that it undoes `join` and is undone by it |
| Text.Join | app/stores/blockStore/utils/mockGenerators.ts:89 | `join(sep)` of the pieces; SplitJoin and JoinSplit state it is the inverse of `split` |
| Text.PadRoundTrip | app/stores/blockStore/utils/mockGenerators.ts:20 | a number below 10^w, padded with zeros to width w, is w digits that read back as the number |
| Text.ParseIntOfPad | app/stores/activityStore.ts:57-58 | `parseInt` of a zero-padded number gives the number back |
| Text.SplitJoin | app/stores/blockStore/utils/mockGenerators.ts:89 | splitting a join of separator-free pieces at the separator gives the pieces back |
| Text.JoinSplit | app/stores/blockStore/utils/mockGenerators.ts:89 | joining the pieces of a split with the same separator gives the string back |
| Seqs.Reverse | app/stores/blockStore/utils/mockGenerators.ts:89 | `Array.prototype.reverse`: the same length, element i taken from the mirrored position |
| Seqs.Filter | app/stores/blockStore/utils/mockGenerators.ts:24 | `filter(p)` never grows the list; FilterMembers, FilterCounts and FilterAppend state which elements it keeps, how often, and in what order |
| Seqs.FilterMembers | app/stores/blockStore/utils/mockGenerators.ts:78-80 | `filter` keeps exactly the elements that satisfy the predicate |
| Seqs.FilterCounts | app/stores/blockStore/utils/mockGenerators.ts:78-80 | `filter` keeps every copy of a satisfying element |
| Seqs.FilterAppend | app/stores/blockStore/utils/mockGenerators.ts:88-95 | filtering a concatenation is the concatenation of the filtered parts |
| Calendar.DaysInMonth | app/stores/blockStore/utils/mockGenerators.ts:143 | months have 28 to 31 days, and February has 29 exactly in leap years |
| Calendar.IsLeapYear | app/stores/blockStore/utils/mockGenerators.ts:140-143 | the Gregorian leap rule; DaysInMonth states February has 29 days exactly in leap years and YearLength that the year loop then runs 366 days |
| Calendar.MonthsFillYear | app/stores/blockStore/utils/mockGenerators.ts:140-143 | the twelve months add up to the year, and December is its last 31 days |
| Calendar.DayNumber | app/stores/blockStore/utils/mockGenerators.ts:84-85 | the number of a valid day counted from 1970-01-01; DayNumberRoundTrip and DayNumberInjective state it names each day once |
| Calendar.NextDay | app/stores/blockStore/utils/mockGenerators.ts:143 | `setDate(getDate() + 1)`: the next valid day, rolling over month and year ends; NextDayNumber states its number is one more |
| Calendar.PrevDay | app/stores/blockStore/utils/mockGenerators.ts:85 | `setDate(getDate() - 1)`: the previous valid day; PrevDayNumber states its number is one less |
| Calendar.FromDayNumber | app/stores/blockStore/utils/mockGenerators.ts:84-85 | the valid day reached from 1970-01-01 by stepping one day at a time; FromDayNumberCorrect states it has that day number |
| Calendar.NextDayNumber | app/stores/blockStore/utils/mockGenerators.ts:143 | `setDate(getDate() + 1)` moves to the day with the next day number, across month and year ends |
| Calendar.PrevDayNumber | app/stores/blockStore/utils/mockGenerators.ts:85 | stepping back one day lowers the day number by one |
| Calendar.WalkNumber | app/stores/blockStore/utils/mockGenerators.ts:84-85 | `setDate(getDate() - i)` is i days before today |
| Calendar.FromDayNumberCorrect | app/stores/blockStore/utils/mockGenerators.ts:84-85 | every day number names a valid date with that number |
| Calendar.DayNumberRoundTrip | app/stores/blockStore/utils/mockGenerators.ts:143-144 | a valid date is recovered from its day number |
| Calendar.DayNumberInjective | app/stores/blockStore/utils/mockGenerators.ts:90-94 | two dates with equal day numbers are the same day, month and year |
| Calendar.YearEnds | app/stores/blockStore/utils/mockGenerators.ts:140-141 | January 1 is the first day number of the year and December 31 the last |
| Calendar.DayOfYear | app/stores/blockStore/utils/mockGenerators.ts:143 | every day the year loop visits lies in that year |
| Calendar.Weekday | app/stores/blockStore/utils/mockGenerators.ts:106 | `getDay()` is in 0..6, with 1970-01-01 a Thursday |
| Calendar.WeekdayNext | app/stores/blockStore/utils/mockGenerators.ts:165-166 | consecutive days have consecutive weekdays, wrapping Saturday to Sunday |
| Calendar.WeekOfMonth | app/stores/blockStore/utils/mockGenerators.ts:107 | `Math.ceil(day / 7)` is the week whose seven days contain `day`, and is 1..5 for days of a month |
| Calendar.ParseIsoDate | app/stores/blockStore/utils/mockGenerators.ts:89 | `new Date("YYYY-MM-DD")` is a valid date when it succeeds |
| Calendar.MakeDate | app/stores/blockStore/utils/mockGenerators.ts:89 | the day a year, month and day of an ISO date name, valid whenever it exists |
| Calendar.IsoDate | app/stores/blockStore/utils/mockGenerators.ts:102 | `toISOString().split("T")[0]`; IsoDateRoundTrip states it is 10 characters that parse back to the day |
| Calendar.IsoDateRoundTrip | app/stores/blockStore/utils/mockGenerators.ts:102 | the ISO date of a four-digit-year day is 10 characters and reads back as that day |
| MockGenerators.RewriteBlockDate | app/stores/blockStore/utils/mockGenerators.ts:89 | `split("/").reverse().join("-")` of a block date; RewriteThree and BlockDateRoundTrip show it turns `DD/MM/YYYY` into the ISO date |
| MockGenerators.BlockDay | app/stores/blockStore/utils/mockGenerators.ts:89 | the calendar day `new Date` makes of the rewritten block date, or none; BlockDateRoundTrip gives the day of a `DD/MM/YYYY` date |
| MockGenerators.OnDay | app/stores/blockStore/utils/mockGenerators.ts:90-94 | the day, month and year comparison of a block with the loop's date; DayMatchIff states it holds for exactly the day the block names |
| MockGenerators.DayBlocks | app/stores/blockStore/utils/mockGenerators.ts:88-95 | the blocks of one day, in block order, never more than all the blocks; DayBlocksMembers states exactly which blocks, with multiplicity |
| MockGenerators.DayRow | app/stores/blockStore/utils/mockGenerators.ts:101-109 | one heatmap row of a day, keeping the value and meter it is given; DayRowFields states its date and calendar fields |
| MockGenerators.MeterIds | app/stores/blockStore/utils/mockGenerators.ts:13 | `blocks.map(b => b.meterId)`: one id per block, in block order |
| MockGenerators.FanOut | app/stores/blockStore/utils/mockGenerators.ts:100-110 | one copy of a row per meter id, as many rows as ids; FanOutAt states what copy j is |
| MockGenerators.RollingDay | app/stores/blockStore/utils/mockGenerators.ts:97-123 | the rows one iteration of the 90-day loop adds; RollingDayContents and RollingDayShape state their number, values, meters and date |
| MockGenerators.ZeroRow | app/stores/blockStore/utils/mockGenerators.ts:112-122 | the zero row with meter `""` of a blockless day when no filter is given; RollingDayContents and RollingToday state where it appears |
| MockGenerators.RollingRows | app/stores/blockStore/utils/mockGenerators.ts:83-124 | the rows the 90-day loop accumulates after some days, newest first; RollingRowsSplit states where each day's rows sit |
| MockGenerators.RollingRowsSplit | app/stores/blockStore/utils/mockGenerators.ts:83-124 | the rows split around day today−i into the rows of the i newer days, that day's rows, then the rows of the older days |
| MockGenerators.RollingHeatmap | app/stores/blockStore/utils/mockGenerators.ts:73-127 | what `generateMockHeatmapData` returns for a given today; GenerateMockHeatmapData is proved equal to it, and RollingLength, RollingWindowDates and RollingToday state its length, dates and a whole output |
| MockGenerators.JsYear | app/stores/blockStore/utils/mockGenerators.ts:140 | the year `new Date(year, 0, 1)` denotes, years 0 to 99 read as 1900 to 1999; YearLength and YearRowsShape are stated through it |
| MockGenerators.IsWeekend | app/stores/blockStore/utils/mockGenerators.ts:165-166 | Sunday or Saturday; YearValue passes it to the synthetic value of a blockless day |
| MockGenerators.YearDay | app/stores/blockStore/utils/mockGenerators.ts:156-223 | the rows one iteration of the year loop adds; YearDayContents and YearDayShape state their number, value, meters and date |
| MockGenerators.AscendingRows | app/stores/blockStore/utils/mockGenerators.ts:143-223 | the rows the year loop accumulates after some days, oldest first; AscendingRowsSplit states where each day's rows sit |
| MockGenerators.YearHeatmap | app/stores/blockStore/utils/mockGenerators.ts:129-227 | what `generateMockHeatmapDataByYear` returns; GenerateMockHeatmapDataByYear is proved equal to it, and YearLength and YearRowsShape state its length, dates and meters |
| MockGenerators.ActivityLevel | app/stores/blockStore/utils/mockGenerators.ts:25 | a meter's share of all blocks; ActivityLevelRange states its range and when it is 1 |
| MockGenerators.BaseUsage | app/stores/blockStore/utils/mockGenerators.ts:26 | `10 + activityLevel * 20`; BaseUsageRange states its range and when it is 30 |
| MockGenerators.FixedHour | app/stores/blockStore/utils/mockGenerators.ts:18-21 | the label of hour h; FixedHourShape states its shape |
| MockGenerators.MeterHours | app/stores/blockStore/utils/mockGenerators.ts:24-39 | the 24 rows of one meter, hour 0 first; PushMeterHours is proved to append them and HourlyRowAt states each row |
| MockGenerators.HourlyRows | app/stores/blockStore/utils/mockGenerators.ts:23-40 | the rows the per-meter loop accumulates; HourlyRowsLength and HourlyRowsAt state their number and each row |
| MockGenerators.HourlyEnergy | app/stores/blockStore/utils/mockGenerators.ts:9-43 | what `generateHourlyEnergyUsage` returns; GenerateHourlyEnergyUsage is proved equal to it, and HourlyLength and HourlyRowAt state its length and rows |
| MockGenerators.MeterCoins | app/stores/blockStore/utils/mockGenerators.ts:59-67 | one meter's coins, one per input coin; StablecoinValues states each entry |
| MockGenerators.StablecoinMap | app/stores/blockStore/utils/mockGenerators.ts:54-68 | the record after assigning the given meters' keys in order: its keys are exactly those meters; StablecoinMapAt states each value |
| MockGenerators.MeterStablecoins | app/stores/blockStore/utils/mockGenerators.ts:45-71 | what `generateMeterStablecoins` returns; GenerateMeterStablecoins is proved equal to it, and StablecoinKeys and StablecoinValues state its keys and values |
| MockGenerators.FilterByMeter | app/stores/blockStore/utils/mockGenerators.ts:78-80 | with no meter id the blocks are kept whole, and never grow |
| MockGenerators.FilterByMeterMembers | app/stores/blockStore/utils/mockGenerators.ts:78-80 | with a meter id, exactly that meter's blocks are kept, every copy of each |
| MockGenerators.DayBlocksMembers | app/stores/blockStore/utils/mockGenerators.ts:88-95 | a day's blocks are exactly the blocks whose date names that day, every copy of each |
| MockGenerators.BlockDateRoundTrip | app/stores/blockStore/utils/mockGenerators.ts:89 | reversing the fields of `DD/MM/YYYY` and joining them with `-` gives the ISO date, which parses back to the day |
| MockGenerators.DayMatchIff | app/stores/blockStore/utils/mockGenerators.ts:88-95 | a `DD/MM/YYYY` block counts for a day if and only if it names that day |
| MockGenerators.DayRowFields | app/stores/blockStore/utils/mockGenerators.ts:101-109 | a row carries its day's ISO date, month, day, weekday, and week of the month, all in range |
| MockGenerators.Distinct | app/stores/blockStore/utils/mockGenerators.ts:12-14 | `Array.from(new Set(xs))` has the same members as xs, each once |
| MockGenerators.DistinctFirstAppearance | app/stores/blockStore/utils/mockGenerators.ts:195-197 | distinct values come out in order of first appearance |
| MockGenerators.UniqueMeterIds | app/stores/blockStore/utils/mockGenerators.ts:49-51 | the unique meter ids are exactly the blocks' meters, without repeats, and are empty only without blocks |
| MockGenerators.FanOutAt | app/stores/blockStore/utils/mockGenerators.ts:200-210 | copy j of the fanned-out row carries meter j and nothing else changes |
| MockGenerators.GenerateMockHeatmapData | app/stores/blockStore/utils/mockGenerators.ts:73-127 | the 90-day loop returns the rolling heatmap: the rows of today, then yesterday, and so on |
| MockGenerators.PushDay | app/stores/blockStore/utils/mockGenerators.ts:87-123 | one iteration appends exactly that day's rows |
| MockGenerators.PushMeterRows | app/stores/blockStore/utils/mockGenerators.ts:100-110 | the inner loop appends one row per matching block, in block order |
| MockGenerators.RollingDayContents | app/stores/blockStore/utils/mockGenerators.ts:97-123 | a day with k blocks gives k rows of value 10k carrying the blocks' meters; a day without blocks gives one zero row with meter `""` when unfiltered, and nothing when filtered |
| MockGenerators.RollingLength | app/stores/blockStore/utils/mockGenerators.ts:83-124 | the view has the sum over days of max(k, 1) rows unfiltered, and of k rows filtered |
| MockGenerators.RollingWindowDates | app/stores/blockStore/utils/mockGenerators.ts:83-85 | every row is dated within the 90 days ending today, with its calendar fields in range, and carries the filter's meter when one is given |
| MockGenerators.RollingToday | app/stores/blockStore/utils/mockGenerators.ts:83-123 | blocks all dated today and no filter give today's k rows, then 89 single zero rows for the earlier days |
| MockGenerators.YearValue | app/stores/blockStore/utils/mockGenerators.ts:157-179 | a day with k blocks has value min(25k, 100), reaching 100 exactly when k >= 4; a day without blocks has the synthetic value for its weekend flag and month |
| MockGenerators.GenerateMockHeatmapDataByYear | app/stores/blockStore/utils/mockGenerators.ts:129-227 | the loop from January 1 to December 31 returns the year heatmap, oldest day first |
| MockGenerators.PushYearDay | app/stores/blockStore/utils/mockGenerators.ts:144-223 | one iteration appends exactly that day's rows |
| MockGenerators.YearDayContents | app/stores/blockStore/utils/mockGenerators.ts:181-222 | with a filter a day gives one row for that meter; without one it gives a row per distinct meter in order of first appearance, or one row with meter `""` without blocks; all rows share the day's value |
| MockGenerators.YearLength | app/stores/blockStore/utils/mockGenerators.ts:140-143 | the year view has 365 or 366 days times the rows per day |
| MockGenerators.AscendingRowsSplit | app/stores/blockStore/utils/mockGenerators.ts:143 | the rows split around any day into the days before, that day's rows and the days after |
| MockGenerators.YearRowsShape | app/stores/blockStore/utils/mockGenerators.ts:140-223 | every row is dated within that year with its calendar fields in range, and carries the filter's meter, one of the blocks' meters, or `""` |
| MockGenerators.MeterBlocks | app/stores/blockStore/utils/mockGenerators.ts:24 | a meter's blocks are exactly the blocks with that meter id |
| MockGenerators.ActivityLevelRange | app/stores/blockStore/utils/mockGenerators.ts:25 | a listed meter's share of the blocks is in (0, 1], and is 1 exactly when it owns every block |
| MockGenerators.BaseUsageRange | app/stores/blockStore/utils/mockGenerators.ts:26 | the hourly baseline is in (10, 30], and is 30 exactly when the meter owns every block |
| MockGenerators.MeterDate | app/stores/blockStore/utils/mockGenerators.ts:28 | the meter's date is never empty |
| MockGenerators.FirstOfMeter | app/stores/blockStore/utils/mockGenerators.ts:24-28 | the position of the meter's first block, which `meterBlocks[0]` reads; MeterDateFirst states the date is taken from it |
| MockGenerators.MeterDateFirst | app/stores/blockStore/utils/mockGenerators.ts:28 | the date is that of the meter's first block, or `2025-01-01` when that date is empty |
| MockGenerators.FixedHourShape | app/stores/blockStore/utils/mockGenerators.ts:18-21 | hour labels are two digits reading back as the hour, then `:00` |
| MockGenerators.GenerateHourlyEnergyUsage | app/stores/blockStore/utils/mockGenerators.ts:9-43 | the per-meter loop returns the hourly series |
| MockGenerators.PushMeterHours | app/stores/blockStore/utils/mockGenerators.ts:30-39 | the inner loop appends the meter's 24 rows, hour 0 first |
| MockGenerators.HourlyLength | app/stores/blockStore/utils/mockGenerators.ts:12-40 | the series has 24 rows per distinct meter, and is empty exactly without blocks |
| MockGenerators.HourlyRowAt | app/stores/blockStore/utils/mockGenerators.ts:23-39 | row k belongs to meter k/24 in order of first appearance and to hour k%24; its timestamp is the meter's date, a space and the hour label, and its value is the draw on the meter's baseline |
| MockGenerators.GenerateMeterStablecoins | app/stores/blockStore/utils/mockGenerators.ts:45-71 | the loops return the stablecoin record |
| MockGenerators.StablecoinKeys | app/stores/blockStore/utils/mockGenerators.ts:49-59 | the record's keys are exactly the blocks' meters, and it is empty exactly without blocks |
| MockGenerators.StablecoinValues | app/stores/blockStore/utils/mockGenerators.ts:54-67 | each meter gets one entry per coin, in order, keeping symbol and network, priced by the draw on the meter's share |
| ActivityStore.To24 | app/stores/activityStore.ts:60-61 | the hour after the AM/PM correction; To24Bijection states it is a bijection from 12-hour to 24-hour hours |
| ActivityStore.Field | app/stores/activityStore.ts:63-66 | `String(n).padStart(2, "0")`; for an hour or a minute it is the two-digit padding of the number, which ClockRoundTrip states reads back |
| ActivityStore.Clock | app/stores/activityStore.ts:63-66 | the template `HH:mm:00`; ClockRoundTrip states it is 8 characters that parse back |
| ActivityStore.ClockFields | app/stores/activityStore.ts:55-61 | the hour (corrected) and minute `parseInt` reads from a 12-hour time, `None` for NaN; ConvertTwelveHour reads them from a well-formed time |
| ActivityStore.ParseClock | app/stores/activityStore.ts:22 | the time part `new Date` reads, always an hour 0..23, minute 0..59 and second 0..59; ClockRoundTrip reads back a written clock |
| ActivityStore.ParseDateTime | app/stores/activityStore.ts:22 | `new Date(s).getTime()` for a date and a time joined at `T`, `None` for an invalid date; DateAndClock states when it succeeds |
| ActivityStore.InstantMs | app/stores/activityStore.ts:22 | `getTime()` of a day and time of day; InstantOfRecord states a record's instant is its day at the corrected hour and minute |
| ActivityStore.InstantOf | app/stores/activityStore.ts:181-182 | the instant of a date and a 12-hour time after conversion; InstantOfRecord gives it for seed-shaped records |
| ActivityStore.Instant | app/stores/activityStore.ts:181-182 | the sort key of a record; FeedOrder states the sort by it |
| ActivityStore.DisplayTime | app/stores/activityStore.ts:29-38 | the phrase for an age; DisplayLadder states the phrase on each range of ages |
| ActivityStore.Ago | app/stores/activityStore.ts:24-43 | the age for a difference in milliseconds; AgeUnits states its hour count and DisplayLadder its phrase |
| ActivityStore.AgeAt | app/stores/activityStore.ts:20-50 | the age of an instant, or of an invalid date, at `now`; AgeAtCases states both cases |
| ActivityStore.ParseTimeAgo | app/stores/activityStore.ts:20-51 | `parseTimeAgo` at `now`; AgeAtCases, UnreadableTimeAsWritten and UnreadableDateAsWritten state its result |
| ActivityStore.NumberField | app/stores/activityStore.ts:63-66 | a field of the written clock, `NaN` exactly for a NaN number, at least two characters |
| ActivityStore.Insert | app/stores/activityStore.ts:180-184 | inserting one record into a sorted list makes it one longer; InsertCounts, InsertNewestFirst and InsertStable state what it keeps |
| ActivityStore.Newer | app/stores/activityStore.ts:181-183 | the comparator ranks one record strictly first, both instants read and the first larger; InsertNewestFirst, SortNewestFirst and SortStable state the order it makes |
| ActivityStore.SortedBy | app/stores/activityStore.ts:180-184 | the sort as a function of the list, of the same length; SortByKey is proved equal to it, and SortPermutes, SortNewestFirst and SortStable state its order |
| ActivityStore.SortedFeed | app/stores/activityStore.ts:180-184 | the seed list sorted by instant; SortByInstant is proved equal to it and FeedOrder states its order |
| ActivityStore.Enriched | app/stores/activityStore.ts:187-192 | one record with its age added; EnrichKeepsRecords states what it keeps and adds |
| ActivityStore.Enrich | app/stores/activityStore.ts:186-193 | the map over the sorted feed; EnrichKeepsRecords states it keeps length, order and fields |
| ActivityStore.To24Bijection | app/stores/activityStore.ts:60-61 | on hours 1..12 with AM or PM the correction is a bijection onto 0..23, with AM in 0..11 and PM in 12..23 |
| ActivityStore.ConvertTo24Hour | app/stores/activityStore.ts:53-71 | the result is at least 8 characters ending in `:00`, and is `00:00:00` when either number cannot be read |
| ActivityStore.ConvertTwelveHour | app/stores/activityStore.ts:55-66 | `hh:mm AM/PM` converts to the 8-character clock of the corrected hour, which reads back as that hour and minute |
| ActivityStore.ClockRoundTrip | app/stores/activityStore.ts:63-66 | the written clock is 8 characters and parses back as the hour and minute |
| ActivityStore.InstantOfRecord | app/stores/activityStore.ts:22 | a record's date and 12-hour time denote that day at the corrected hour and minute |
| ActivityStore.DateAndClock | app/stores/activityStore.ts:22 | a date-time string is read exactly when both halves are, and an unreadable half makes it invalid |
| ActivityStore.AgeUnits | app/stores/activityStore.ts:24-27 | flooring minutes, then hours, then days equals flooring the milliseconds by the unit; hours are negative exactly for future instants |
| ActivityStore.DisplayLadder | app/stores/activityStore.ts:29-38 | the phrase is minutes under an hour, `1 hour`, hours under a day, `1 day`, then days |
| ActivityStore.AgeAtCases | app/stores/activityStore.ts:20-50 | an unreadable date and time gives infinite hours and `Unknown time ago`; otherwise the whole hours elapsed |
| ActivityStore.ConvertTo24HourAsWritten | app/stores/activityStore.ts:53-71 | the code as written agrees with the conversion whenever both numbers can be read |
| ActivityStore.ParseTimeAgoAsWritten | app/stores/activityStore.ts:20-51 | the code as written never returns the infinite age of its error branch |
| ActivityStore.UnreadableTimeAsWritten | app/stores/activityStore.ts:22-38 | an unreadable hour or minute gives `NaN` fields and `NaN days ago` as written; the fallback gives `00:00:00`, so the record's instant is midnight of its date |
| ActivityStore.UnreadableDateAsWritten | app/stores/activityStore.ts:20-50 | an unreadable date gives `NaN days ago` as written, and infinite hours with `Unknown time ago` in the model |
| ActivityStore.SortByKey | app/stores/activityStore.ts:180-184 | the in-place sort leaves the array equal to the insertion-sorted sequence of its old contents |
| ActivityStore.InsertInto | app/stores/activityStore.ts:180-184 | one pass inserts `a[i]` into the sorted prefix `a[..i]`, moving it ahead only of strictly older records, and leaves the rest of the array alone |
| ActivityStore.SortByInstant | app/stores/activityStore.ts:180-184 | `rawActivities.sort` by the instants of date and time leaves the sorted feed in the array |
| ActivityStore.SortPermutes | app/stores/activityStore.ts:180 | the sort keeps every record, each as often |
| ActivityStore.SortNewestFirst | app/stores/activityStore.ts:183 | with every instant readable, no record is newer than one before it |
| ActivityStore.SortStable | app/stores/activityStore.ts:180-184 | records with the same instant, or with none, keep their order |
| ActivityStore.FeedOrder | app/stores/activityStore.ts:180-184 | the feed is a permutation of the seed list, newest first when every instant is readable, and stable |
| ActivityStore.EnrichKeepsRecords | app/stores/activityStore.ts:186-193 | enrichment keeps each record's fields and position and adds its age and phrase |
| ActivityStore.LoadActivities | app/stores/activityStore.ts:180-193 | loading sorts the seed array in place and returns the enriched sorted feed |
| ActivityStore.Store.constructor | app/stores/activityStore.ts:195-197 | the store starts with the feed it is given and the filter `All` |
| ActivityStore.Store.SetFilter | app/stores/activityStore.ts:198 | setting the filter records it and leaves the feed unchanged |
| ActivityStore.CreateActivityStore | app/stores/activityStore.ts:180-199 | building the store sorts the seed array in place and gives a new store holding the enrichment of the sorted seed list and the filter `All` |

## Left out

- Randomness: `Math.random`, `Math.sin`, `toFixed` and `parseFloat` are not modelled. The energy reading, the stablecoin value and a blockless day's intensity in the year view are functions passed in. The model fixes which meter, hour, coin, share or day each draw is taken for, but not its numeric range.
- The clock: today's day number and the current instant in milliseconds are parameters. One time zone is assumed, so local `getDate` and UTC `toISOString` name the same day.
- MockGenerators.RollingDay: the rolling view's value is `10 * k` in exact arithmetic. The source's floating-point `Math.floor(k / 10 * 100)` can come out one lower for some counts.
- Calendar.ParseIsoDate: reads only the strict `YYYY`, `YYYY-MM` and `YYYY-MM-DD` forms, with the day within its month. Formats an engine's `Date.parse` may accept on its own, such as the unpadded `2025-7-5` a `5/7/2025` block date rewrites to, and days past the end of the month such as `31/02/2025`, are not modelled. Such a block counts for no day in the model, where the engine may count it for one.
- ActivityStore.ParseClock: reads only `HH:mm` and `HH:mm:ss`. It does not accept `24:00`, fractional seconds or a zone suffix; no record produces those.
- `parseInt` skipping leading whitespace, and its other radix rules, are not modelled; the times are written without leading blanks.
- ActivityStore.SortByKey: it is an insertion sort. JavaScript's engine sort gives the same order for a consistent comparator. When some instants are NaN the comparator is inconsistent, and the engine's order is not specified; the model then keeps the insertion order of ties.
- The zustand store wiring, `console.error`, and the literal seed records are not modelled. The seed list is a parameter.
- Filter thresholds: the store applies none. The activities page maps the selected filter to an hour limit (`Infinity` for `All`) and applies it; that page is outside the modelled core and is not part of this model.
- JavaScript `Record` behaviour for keys such as `__proto__` is not modelled; the record is a map.

## Findings

| source | as written | input that shows it | evidently intended | confidence | as-written member | corrected member |
|---|---|---|---|---|---|---|
| app/stores/activityStore.ts:53-71 | `parseInt` gives NaN rather than raising, so the error branch never runs and an unreadable hour or minute is written `NaN`, e.g. `NaN:NaN:00`; the record's instant is then invalid, its hour count NaN, and the activities page's `hoursAgo <= limit` test hides it under every filter, `All` included | a time of `noon` (no digits before a colon) | the `00:00:00` fallback of the error branch | high, not executed | ActivityStore.ConvertTo24HourAsWritten, ActivityStore.UnreadableTimeAsWritten | ActivityStore.ConvertTo24Hour |
| app/stores/activityStore.ts:20-51 | `new Date` of an unreadable string is an invalid date rather than an error, so the age is NaN hours and `NaN days ago`; a NaN hour count fails the activities page's `hoursAgo <= limit` test for every filter, `All` included, so the record is never shown | a record whose date is `soon` | infinite hours with `Unknown time ago`, from the error branch | high, not executed | ActivityStore.ParseTimeAgoAsWritten, ActivityStore.UnreadableDateAsWritten | ActivityStore.AgeAtCases |
