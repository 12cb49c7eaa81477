# F-OKNO slot monitor — verified model

The monitor watches the visit-booking page of the Noginsk remand prison (SIZO-11) on the
F-OKNO service. On each pass it does four things:

1. It loads the page and extracts one availability record per day card (a date label and a
   status).
2. It compares a snapshot of those records with the snapshot stored by the previous pass.
3. On a change it may send a Telegram alert listing the free dates.
4. On a change it then stores the new snapshot; an unchanged pass writes nothing.

This project models the decision logic of that pass in Dafny and proves what it promises. The
browser, the HTML parser, the network and the files are replaced by plain values; see
"Left out".

Modules:

- `Text`: the Python string builtins the extractor relies on.
  - `p in s` is `Contains`, which agrees with a positional definition.
  - `s.replace(p, "")` is `RemoveAll`. It removes occurrences left to right, without overlaps,
    and an empty pattern changes nothing.
  - `s.strip()` is `Strip`. It trims the characters for which Python's `str.isspace` holds.
- `Slots`: the `{date, status}` record and the two status strings the code writes. `HasFree` is
  the `any(...)` test and `FreeSlots` is the filter comprehension.
- `Extractor`: `parse_slots_from_html`.
  - The input is the texts of the matched day nodes (possibly none) and the text of the whole
    page.
  - `ParseSlots` is the loop of `parse_slots_from_html`, proved equal to the specification `Extract`.
  - The marker loop is `RemoveMarkers`, proved equal to `DateLabel`.
- `Formatter`: `format_slots` with `only_available=True`. The method `FormatSlots` builds the
  lines in a loop and is proved equal to `Format`.
- `Snapshot`: a stand-in for `json.dumps(slots, sort_keys=True)`. It is an injective codec with
  a decoder and round trips in both directions. Its output is never empty and starts with `[`.
  Fields are written in sorted key order (date, then status).
- `CheckRun`: the snapshot/alert/save rule of `one_check_run`.
  - The class `Monitor` keeps the state file in `stored` (`""` when the file is missing) and
    the log of sent messages in `sent`.
  - `Monitor.Run` is proved to have the effect of the state function `Step`.
  - `Step` has lemmas for deduplication, the first pass, suppression and change detection.
  - `Replay` runs `Step` over many passes.

Two quirks of the code are kept on purpose and proved as they are:

- The tier-1 test also looks for the stem "Свободн". A card reading "Свободных мест нет" ("no
  free places") is therefore classified free, and its date label is empty.
- The fallback test does not look for that stem.

## Model

| member | source | states |
|---|---|---|
| Text.ContainsIff | f_okno_monitor_selenium.py:165 | The substring test `p in s` holds exactly when `p` occurs at some index of `s`. |
| Text.StripIsInfix | f_okno_monitor_selenium.py:168 | `strip()` keeps an infix of the string that has no whitespace at either end, and removes only whitespace before and after it. |
| Text.StripEmptyIff | f_okno_monitor_selenium.py:168 | A string strips to `""` exactly when all its characters are whitespace. |
| Text.StripStripped | f_okno_monitor_selenium.py:168 | Stripping is idempotent, and it leaves a string unchanged exactly when the string has no whitespace at either end. |
| Text.RemoveAllShape | f_okno_monitor_selenium.py:168 | `replace(m, "")` never lengthens the text and leaves it unchanged when `m` does not occur in it. |
| Text.RemoveAllFirst | f_okno_monitor_selenium.py:168 | `replace(m, "")` scans left to right: the text before the first occurrence of `m` is kept, that occurrence is dropped, and removal resumes right after it. |
| Text.RemoveAllShrinks | f_okno_monitor_selenium.py:168 | Removing a non-empty marker that occurs shortens the text by at least the marker's length. |
| Slots.HasFreeIff | f_okno_monitor_selenium.py:196-198 | Some record has status "Свободно" exactly when the filtered list is non-empty. |
| Slots.FreeSlotsAppend | f_okno_monitor_selenium.py:196 | The filter keeps the free records of each part of a list in their original order. |
| Slots.FreeSlotsComplete | f_okno_monitor_selenium.py:196 | Every free record of the input is in the filtered list. |
| Extractor.ParseSlots | f_okno_monitor_selenium.py:156-182 | The loop returns exactly `Extract`: tier 1 when some node matched, the fallback otherwise. |
| Extractor.RemoveMarkers | f_okno_monitor_selenium.py:166-168 | The marker loop returns the text after removing the four markers in order, stripping after each. |
| Extractor.CardStatus | f_okno_monitor_selenium.py:165-172 | A card is "Свободно" exactly when its text contains "Есть места", "Записаться" or "Свободн", and "Нет мест" exactly when it contains none of them. |
| Extractor.ExtractStatuses | f_okno_monitor_selenium.py:165-180 | Every record produced has status "Свободно" or "Нет мест"; no other value occurs. |
| Extractor.ExtractLength | f_okno_monitor_selenium.py:160-182 | Tier 1 yields exactly one record per non-empty node text (so at most one per node), record `k` being the record of the `k`-th non-empty text. The fallback yields exactly one. |
| Extractor.NonEmptyTextsShape | f_okno_monitor_selenium.py:161-164 | The texts kept are non-empty texts of the nodes, and there are no more of them than nodes. |
| Extractor.NonEmptyTextsAppend | f_okno_monitor_selenium.py:161-164 | Skipping empty texts preserves node order across concatenation. |
| Extractor.Tier1IgnoresPage | f_okno_monitor_selenium.py:160-173 | Tier priority: once a node matched, the page text plays no part in the result. |
| Extractor.Tier1Append | f_okno_monitor_selenium.py:161-172 | A further node adds its record at the end, or nothing when its text is empty. |
| Extractor.Tier1NoEmptyTexts | f_okno_monitor_selenium.py:161-172 | When no matched text is empty, there is one record per node. Record `k` has node `k`'s date label, and the status that node's keyword test gives. |
| Extractor.Tier1AllEmpty | f_okno_monitor_selenium.py:160-173 | Matched nodes that are all empty give `[]`, and the fallback is not used. |
| Extractor.Fallback | f_okno_monitor_selenium.py:176-182 | With no matched node the result is one record with date `""`. It is "Свободно" exactly when the page contains "Есть места" or "Записаться", and "Нет мест" otherwise. |
| Extractor.DateLabelShape | f_okno_monitor_selenium.py:166-168 | A date label is never longer than its card text and has no whitespace at either end. |
| Extractor.StripMarkersAbsent | f_okno_monitor_selenium.py:166-168 | When a text contains none of the markers, the marker loop yields the text stripped. |
| Extractor.DateLabelNoMarkers | f_okno_monitor_selenium.py:166-168 | A card text containing none of the four markers has its stripped text as its date. |
| Extractor.StripMarkersStayEmpty | f_okno_monitor_selenium.py:167-168 | Once the markers have emptied the date, the remaining markers leave it empty. |
| Extractor.NoFreePlacesCardIsFree | f_okno_monitor_selenium.py:165 | Kept quirk: any card containing "Свободных мест нет" contains "Свободн" and is classified "Свободно". |
| Extractor.NoFreePlacesCardDate | f_okno_monitor_selenium.py:166-168 | A card reading exactly "Свободных мест нет" gets the empty date label. |
| Extractor.FallbackIgnoresFreeStem | f_okno_monitor_selenium.py:177 | Kept quirk: a page whose text is just "Свободно" falls back to "Нет мест". |
| Formatter.FormatSlots | f_okno_monitor_selenium.py:187-204 | The method (guards, filter, line loop, join) returns exactly `Format`. |
| Formatter.FormatSentinelIff | f_okno_monitor_selenium.py:193-198 | The output is "Свободных дат нет." exactly when no record is free (including the empty list). |
| Formatter.FormatLines | f_okno_monitor_selenium.py:196-204 | When some record is free, the output is the newline-join of one `✅ <b>label</b>` line per free record, in input order. |
| Formatter.LabelShape | f_okno_monitor_selenium.py:202 | A label is never empty and has no whitespace at either end. It is the stripped date when that is not empty, and the substitute "Свободно" when the stripped date is empty (the date is all whitespace). |
| Formatter.FreeDateLooksBlank | f_okno_monitor_selenium.py:202-203 | A record whose date itself reads "Свободно" renders the same line as a record with a blank date. |
| Formatter.LinesAt | f_okno_monitor_selenium.py:201-203 | Line `k` renders record `k`. |
| Formatter.JoinLinesAppend | f_okno_monitor_selenium.py:204 | Joining two non-empty blocks of lines puts exactly one newline between them. |
| Formatter.FormatSingle | f_okno_monitor_selenium.py:193-204 | A single free record renders as its line. A single non-free record renders as the sentence. |
| Formatter.FormatAppend | f_okno_monitor_selenium.py:196-204 | For a concatenation, a part without free records contributes nothing. Two parts with free records are rendered separately and joined by a newline. |
| Snapshot.DecodeEncode | f_okno_monitor_selenium.py:239 | Every snapshot decodes back to the records it was made from. |
| Snapshot.EncodeDecode | f_okno_monitor_selenium.py:239 | A string that decodes is exactly the snapshot of what it decodes to. |
| Snapshot.EncodeInjective | f_okno_monitor_selenium.py:239-242 | Two snapshots are equal exactly when the record lists are equal, including order. |
| Snapshot.EncodeNonEmpty | f_okno_monitor_selenium.py:239 | A snapshot is never `""`: it starts with `[`, like a JSON list. |
| CheckRun.Monitor.constructor | f_okno_monitor_selenium.py:69-74 | A fresh deployment has no state file, which reads as `""`, and has sent no messages; `Valid` (what every pass leaves in the state file) holds. |
| CheckRun.Monitor.LoadLastSnapshot | f_okno_monitor_selenium.py:69-74 | Returns the stored snapshot, `""` when there is none. |
| CheckRun.Monitor.SaveSnapshot | f_okno_monitor_selenium.py:77-79 | Overwrites the stored snapshot and leaves the message log alone. |
| CheckRun.Monitor.SendTg | f_okno_monitor_selenium.py:82-98 | Appends one message to the log and leaves the stored snapshot alone. |
| CheckRun.Monitor.Run | f_okno_monitor_selenium.py:227-254 | One pass changes the state exactly as `Step` does on the extracted records. Afterwards the state file holds a decodable snapshot. |
| CheckRun.StepDecision | f_okno_monitor_selenium.py:228-252 | After a pass the stored snapshot is the current one and old messages are kept. Exactly one message, the alert for these records, is added when the snapshot changed and (some record is free or the filter is off); otherwise none is. |
| CheckRun.StepStoresDecodable | f_okno_monitor_selenium.py:239-252 | After any pass the state file decodes to exactly the records that pass extracted. |
| CheckRun.StepUnchanged | f_okno_monitor_selenium.py:242-254 | An unchanged snapshot changes neither the state file nor the message log. |
| CheckRun.FirstRunChanged | f_okno_monitor_selenium.py:242-252 | A missing state file differs from every snapshot, so the first pass always saves. It alerts exactly when the alert condition holds. |
| CheckRun.FirstRunDefault | f_okno_monitor_selenium.py:242-252 | With no state file and the default settings (filter on), the first pass stores its snapshot and sends one alert exactly when some record is free, and none otherwise. |
| CheckRun.NoRepeat | f_okno_monitor_selenium.py:239-254 | A second pass over the same records changes nothing, whatever its timestamp. Two such passes send at most one message. |
| CheckRun.ChangeDetection | f_okno_monitor_selenium.py:239-252 | After a pass over `a`, a pass over `b` saves exactly when `b` differs from `a`. |
| CheckRun.Suppression | f_okno_monitor_selenium.py:243-250 | With `ONLY_NOTIFY_WHEN_FREE` on, a pass that finds nothing free sends nothing. |
| CheckRun.AlertListsFreeDates | f_okno_monitor_selenium.py:243-247 | With the filter on, every alert sent has free records, and its body is never the "no free dates" sentence. |
| CheckRun.MessageShape | f_okno_monitor_selenium.py:244-249 | An alert starts with the header, carries the formatted records right after the timestamp, and ends with the link to the target page. |
| CheckRun.AlertsAtMostChanges | f_okno_monitor_selenium.py:239-254 | Over any sequence of passes, the log only grows, by at most one alert per change of snapshot. |
| CheckRun.SameRecordsChangeOnce | f_okno_monitor_selenium.py:239-252 | Passes that all see the same records change the snapshot at most once, and not at all if it is already stored. |
| CheckRun.AlertOnceWhilePageUnchanged | f_okno_monitor_selenium.py:239-254 | However often the monitor runs while the records stay the same, it alerts at most once. |

## Left out

- Browser automation (`make_driver`, `safe_get`, `login`, the sleeps, `driver.page_source`): this is I/O. The page is an input.
- BeautifulSoup parsing and the CSS selector: a foreign library. Its outputs are the inputs: the list of matched node texts, each already `get_text(" ", strip=True)`, and the page text `get_text("\n", strip=True)`.
- `send_tg` and `requests.post`: network I/O. A send is an append to the `sent` log. The credential check and the HTTP error handling are not modelled, so every alert counts as sent.
- The Moscow timestamp from `datetime`/`ZoneInfo`: wall-clock time. It is an opaque string parameter of `Run`.
- `json.dumps`: its exact characters are not reproduced. `Snapshot.Encode` is an injective codec in its place. The monitor only compares snapshots for equality, so any injective encoding behaves the same way.
- Reading and writing `STATE_FILE`, `page.html` and `page.png`: file I/O. The state file is the single string field `stored`, and a missing file is `""`.
- The exception and diagnostics path and the `FAIL_ON_ERROR` handling: exception plumbing with no data logic.
- Logging, including the `free_dates` list that is only logged.
- `format_slots` with `only_available=False`: no caller uses it, so only the filtered path is modelled.
- The settings come from environment variables, read once at start-up. They are the `Config` value passed to `Run`. `DEFAULT_CONFIG` holds the defaults: the target URL, and the filter on.
- `Text.Strip`: covers the characters of Python's `str.isspace` as written out in `IsSpace`. Python computes that set from the Unicode database; the model uses a fixed list.
