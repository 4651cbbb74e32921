# LuoguBus in Dafny

LuoguBus builds a "problem-solving diary" for a user of the Luogu online
judge. It fetches the user's latest submissions from `luogu.com.cn` and sorts
them by submit time, oldest first. It then writes the same records twice: as
an Excel workbook with a styled header and each record's run-time cell
coloured by its verdict, and as a CSV file. There are two scripts:

- `LuoguBusMain.py` asks the user to type the two cookies `__client_id` and
  `_uid`.
- `LuoguBusAutoCookie__DANGEROUS.py` first tries to read those cookies from
  Chrome's cookie database on Windows. It decrypts them with the key from
  Chrome's `Local State`. Only when that fails does it ask the user.

This project models both scripts. It proves what their record handling,
labelling, styling and cookie selection promise. Around decryption, which
stays uninterpreted, it proves the byte layouts the scripts cut and the rule
for which cookie rows count.

Modules, one per file:

- `Common` (`common.dfy`): the Python behaviour the scripts rely on. This covers
  clamping slices, `s[:end]` with a negative end, `str(int)` with its inverse,
  and `str.strip()` over the code points for which `str.isspace()` holds.
- `Submissions` (`submissions.dfy`): the record-list response and
  `fetch_submissions`.
  - The stable `list.sort` by `submitTime` is specified by an insertion sort.
  - Its result is proved sorted, a permutation of the input, and stable (the
    records with one submit time keep their order). It is also the only
    sequence with those properties.
  - An in-place insertion sort over an array is proved to compute it.
  - The cut to `min(count, len)` records is modelled with Python slice
    semantics.
- `Export` (`export.dfy`): the status labels and `create_excel`, with the
  worksheet as a value holding rows plus alignment, fill and font maps keyed by
  (row, column). Also the rows handed to the CSV writer, and the outcome of one
  run.
- `ChromeCookies` (`chrome_cookies.dfy`): `BrowserCookieExtractor`.
  - SQLite's `LIKE` with `%`, `_` and ASCII case folding, used to select the
    domain's hosts.
  - The `encrypted_key[5:]` and `[3:15]` / `[15:]` byte layouts.
  - The key lookup and value decryption, with the DPAPI and AES-GCM
    primitives as function parameters.
  - The dictionary fold in which the last row with a name wins.
- `AutoCookie` (`auto_cookie.dfy`): the cookie script's colours, its CSV
  writer, its credential choice, and `LuoguDiaryGenerator.run`.
- `LuoguMain` (`luogu_main.dfy`): the interactive script's colours, its CSV
  writer, and `main`.

The model takes these outside effects as parameters:

- The HTTP exchange is a function `server(uid, clientId)` that returns the
  decoded response, or `Failed` when the request, the status check or the JSON
  decoding raises.
- `datetime.fromtimestamp(..).strftime(..)` is a function `fmt(time, pattern)`.
- The registry, the file system, SQLite and the Windows and cryptography
  libraries are a `Browser` value. It holds the stored cookie rows (or none),
  the encrypted key (or none), the two primitives, and whether cleanup
  succeeds.
- The typed lines are plain string inputs.
- `sys.exit(1)` is an `Outcome`.

## Model

| member | source | states |
|---|---|---|
| Common.Take | LuoguBusMain.py:40 | `s[:end]` is a prefix of `s`, with length `min(end, len)` for `end >= 0` and `max(0, len + end)` for a negative `end` |
| Common.Slice | LuoguBusAutoCookie__DANGEROUS.py:135 | `s[lo:hi]` has the clamped length, and its element `k` is `s[lo + k]` |
| Common.From | LuoguBusAutoCookie__DANGEROUS.py:136 | `s[lo:]` is what follows the clamped prefix `s[:lo]`, so the two tile `s` |
| Common.NatToDecimal | LuoguBusMain.py:107-108 | the decimal text of a natural number is non-empty, all digits, and has no leading zero; the text of `0` is exactly `0` |
| Common.IntToDecimal | LuoguBusMain.py:107-108 | `str(n)` is non-empty and starts with `-` exactly when `n` is negative |
| Common.ParseNatToDecimal | LuoguBusMain.py:107-108 | reading the digits of a natural number's decimal text gives the number back |
| Common.ParseIntToDecimal | LuoguBusMain.py:107-108 | `int(str(n)) == n` for every integer |
| Common.IntToDecimalInjective | LuoguBusMain.py:100 | different integers have different decimal texts |
| Common.TrimStart | LuoguBusMain.py:182 | the result is a suffix, everything dropped is whitespace, and it does not start with whitespace |
| Common.TrimEnd | LuoguBusMain.py:182 | the result is a prefix, everything dropped is whitespace, and it does not end with whitespace |
| Common.StripEmptyIff | LuoguBusMain.py:182-185 | `s.strip()` is empty exactly when every character of `s` is whitespace |
| Common.Strip | LuoguBusMain.py:182-183 | `s.strip()` is no longer than `s` and has no whitespace at either end. A line with no whitespace at its ends is left as it is. That only end whitespace goes is stated by `StripSegment` |
| Common.SpaceAround | LuoguBusMain.py:182-183 | a prefix of a suffix of `s`, where what was cut on each side is whitespace, is a contiguous piece of `s` with only whitespace around it |
| Common.StripSegment | LuoguBusMain.py:182-183 | `s.strip()` is a contiguous piece of `s`, and everything before and after that piece is whitespace. With the contract of `Strip`, this fixes the result |
| Common.StripIdempotent | LuoguBusMain.py:182-183 | stripping a stripped line changes nothing |
| Submissions.InsertPermutes | LuoguBusMain.py:39 | inserting a record gives the old records plus that one, as a multiset |
| Submissions.InsertSorted | LuoguBusMain.py:39 | inserting into a sorted sequence keeps it sorted by submit time |
| Submissions.InsertWithTime | LuoguBusMain.py:39 | after inserting `x`, the records with time `t` are the old ones in their order, followed by `x` when `x` has time `t` |
| Submissions.StableSort | LuoguBusMain.py:39 | no contract of its own; defined as insertion from the back. Its promise is stated by `StableSortSorted`, `StableSortPermutes`, `StableSortStable` and `StableSortUnique` |
| Submissions.StableSortSorted | LuoguBusMain.py:39 | the sort's result is ordered by submit time |
| Submissions.StableSortPermutes | LuoguBusMain.py:39 | the sort's result is a permutation of its input |
| Submissions.StableSortStable | LuoguBusMain.py:39 | for every submit time, the records with that time appear in their input order |
| Submissions.WithTimeMembers | LuoguBusMain.py:39 | the per-time subsequence holds exactly the records with that time |
| Submissions.SortedSameGroupsEqual | LuoguBusMain.py:39 | two sorted sequences with the same per-time subsequences are equal |
| Submissions.StableSortUnique | LuoguBusMain.py:39 | any sorted sequence that keeps every per-time order is the sort's result, so the stable sort is determined |
| Submissions.InsertAt | LuoguBusMain.py:39 | when the record before a gap is not later than `x` and every record after the gap is, inserting `x` puts it in that gap |
| Submissions.InsertInPlace | LuoguBusMain.py:39 | shifting `a[i]` left into the sorted prefix leaves `a[..i+1]` equal to the specified insertion, and the rest of the array unchanged |
| Submissions.SortBySubmitTime | LuoguBusMain.py:39 | `records.sort(key=submitTime)` in place leaves the array equal to the stable sort of its old contents |
| Submissions.Fetched | LuoguBusMain.py:29-43 | no contract of its own; defined as `[]` on failure, otherwise the first `min(count, len)` records of the stable sort. Its promise is stated by `FetchedSpec` |
| Submissions.FetchedSpec | LuoguBusMain.py:29-43 | the fetched list is empty on a failed request, a code other than 200 or a missing result. Otherwise it is sorted, a prefix of the stable sort, holds `min(count, len)` records for `count >= 0`, is a sub-multiset of the result, and keeps each per-time order |
| Submissions.FetchSubmissions | LuoguBusMain.py:29-43 | the method computes the specified fetch: it sorts a copy of the result in place and cuts it with Python slice semantics |
| Export.StatusName | LuoguBusMain.py:97-99 | a code has a name exactly when it is one of 12, 7, 4, 5, 6, 2 and 14. Each name belongs to exactly one code: AC to 12, WA to 7, TLE to 4, MLE to 5, RE to 6, CE to 2 and Half AC to 14 |
| Export.StatusLabels | LuoguBusMain.py:97-100 | both writers label codes 12, 7, 4, 5, 6, 2 and 14 as AC, WA, TLE, MLE, RE, CE and Half AC. Any other code `n` becomes `未知(n)` in the sheet and `Unknown(n)` in the CSV, with `n` in decimal |
| Export.ExcelLabel | LuoguBusMain.py:97-100 | no contract of its own; defined as the name, or `未知(` code `)`. Its promise is stated by `FallbackLabels` and `ExcelLabelInjective` |
| Export.CsvLabel | LuoguBusMain.py:152-155 | no contract of its own; defined as the name, or `Unknown(` code `)`. Its promise is stated by `FallbackLabels` and `CsvLabelInjective` |
| Export.FallbackLabels | LuoguBusMain.py:97-100 | a fallback label starts with `未` (Excel) or is longer than 8 characters (CSV), and a named code's label is neither |
| Export.ExcelLabelInjective | LuoguBusMain.py:97-100 | different status codes get different Excel labels |
| Export.CsvLabelInjective | LuoguBusMain.py:152-155 | different status codes get different CSV labels |
| Export.ExcelRows | LuoguBusMain.py:92-110 | one row per record, in record order, each that record's row |
| Export.ExcelRow | LuoguBusMain.py:102-109 | no contract of its own; defined as the six cells of a record. Its promise is stated by `ExcelRowReadsBack` and `ExcelAndCsvAgree` |
| Export.CsvRowOf | LuoguBusMain.py:157-164 | no contract of its own; defined as the dictionary of a record. Its promise is stated by `ExcelAndCsvAgree` |
| Export.ExcelRowReadsBack | LuoguBusMain.py:102-109 | a data row has six cells with the label in column 4. Its run-time and memory cells end in `ms` and `KB` and read back to the record's numbers, 0 when absent |
| Export.DataFont | LuoguBusMain.py:126 | a coloured data cell's font is not bold, white exactly for WA, RE and CE, and black otherwise |
| Export.Coloured | LuoguBusMain.py:119-120 | no contract of its own; defined as column 5 of a data row whose label has a colour in the palette. Its promise is stated by `AppendRecord` and `StyledSheetColours` |
| Export.StyleHeader | LuoguBusMain.py:74-78 | the header's cells get the centred alignment, the header fill and the bold white font; no other cell is styled, and title and rows are unchanged |
| Export.AppendRecord | LuoguBusMain.py:110-126 | appending a record adds its row. Columns 1 to 10 get the left alignment; column 5 gets the label's fill and data font exactly when the label has a colour |
| Export.CreateExcel | LuoguBusMain.py:46-126 | the sheet is titled `刷题记录`, holds the header row then one row per record, and every header and data cell is styled as specified |
| Export.StyledSheetColours | LuoguBusMain.py:119-126 | only header cells and run-time cells are ever filled, and the status cell never is. Record `k`'s run-time cell is filled exactly when its label has a colour, in that colour, with white text exactly for WA, RE and CE |
| Export.ExcelAndCsvAgree | LuoguBusMain.py:97-109 | a record's Excel and CSV rows agree on problem id and title when present, on the label exactly when the code is named, and on run time and memory |
| ChromeCookies.Like | LuoguBusAutoCookie__DANGEROUS.py:55-59 | no contract of its own; defined as SQLite `LIKE` without `ESCAPE`. Its promise is stated by `LikeLiteral` and `LikeSuffix` |
| ChromeCookies.HostSelected | LuoguBusAutoCookie__DANGEROUS.py:58-59 | no contract of its own; defined as the two `LIKE` tests of the `WHERE` clause. Its promise is stated by `HostSelectedIffSuffix` and the example lemmas |
| ChromeCookies.LikeLiteral | LuoguBusAutoCookie__DANGEROUS.py:55-59 | a pattern without wildcards matches exactly the strings equal to it up to ASCII case |
| ChromeCookies.LikeSuffix | LuoguBusAutoCookie__DANGEROUS.py:55-59 | `'%' + d`, with no wildcard in `d`, matches exactly the strings that end with `d` up to ASCII case |
| ChromeCookies.DotPatternSubsumed | LuoguBusAutoCookie__DANGEROUS.py:58-59 | whatever `'.%' + d` matches, `'%' + d` matches too |
| ChromeCookies.HostSelectedIffSuffix | LuoguBusAutoCookie__DANGEROUS.py:55-59 | for a domain without wildcards, a host is selected exactly when it ends with the domain up to ASCII case, with no dot boundary |
| ChromeCookies.HostSelectedExamples | LuoguBusAutoCookie__DANGEROUS.py:55-59 | for `example.com`: `example.com`, `.example.com` and `xexample.com` are selected |
| ChromeCookies.CapitalHostSelected | LuoguBusAutoCookie__DANGEROUS.py:55-59 | `WWW.EXAMPLE.COM` is selected for `example.com`, because matching ignores ASCII case |
| ChromeCookies.OtherHostNotSelected | LuoguBusAutoCookie__DANGEROUS.py:55-59 | `other.com` is not selected for `example.com` |
| ChromeCookies.Select | LuoguBusAutoCookie__DANGEROUS.py:55-59 | a row is selected exactly when it is in the table and its host matches one of the two patterns |
| ChromeCookies.DpapiBlob | LuoguBusAutoCookie__DANGEROUS.py:94-95 | `encrypted_key[5:]` is the key without its first 5 bytes, and is empty for a shorter key |
| ChromeCookies.SplitPayload | LuoguBusAutoCookie__DANGEROUS.py:134-136 | the 3-byte tag, the nonce and the body tile the value. The nonce has 12 bytes when the value has at least 15; otherwise the body is empty |
| ChromeCookies.ChromeKey | LuoguBusAutoCookie__DANGEROUS.py:81-128 | no contract of its own; defined as None without a decoded key, otherwise the unwrap of `encrypted_key[5:]`. Its promise is stated by `KeyPrefixIgnored` |
| ChromeCookies.KeyPrefixIgnored | LuoguBusAutoCookie__DANGEROUS.py:94-95 | two keys that differ only in their first 5 bytes unwrap alike, to the unwrap of the rest |
| ChromeCookies.DecryptValue | LuoguBusAutoCookie__DANGEROUS.py:131-147 | no contract of its own; defined as None without a key, otherwise the cipher over the split payload. Its promise is stated by `VersionTagIgnored` and `Contribution` |
| ChromeCookies.VersionTagIgnored | LuoguBusAutoCookie__DANGEROUS.py:134-136 | two values that differ only in their first 3 bytes decrypt alike |
| ChromeCookies.Contribution | LuoguBusAutoCookie__DANGEROUS.py:66-71 | a row with an encrypted value stores exactly when it decrypts to non-empty text, and stores that text. A row without one stores exactly when its plain value is non-empty, and stores that value |
| ChromeCookies.PlainValueIgnoredWhenEncrypted | LuoguBusAutoCookie__DANGEROUS.py:66-70 | a row with an encrypted value never uses its plain value, even when decryption fails |
| ChromeCookies.CookieMap | LuoguBusAutoCookie__DANGEROUS.py:64-71 | no contract of its own; defined as the fold of the rows' contributions into a dictionary. Its promise is stated by `CookieMapKeys` and `CookieMapLastWins` |
| ChromeCookies.CookieMapKeys | LuoguBusAutoCookie__DANGEROUS.py:64-71 | a name is in the dictionary exactly when some row stores a value under it |
| ChromeCookies.CookieMapLastWins | LuoguBusAutoCookie__DANGEROUS.py:64-71 | a name maps to the value of the last row that stores under it |
| ChromeCookies.LastStorer | LuoguBusAutoCookie__DANGEROUS.py:64-71 | among the rows storing under a name there is a last one |
| ChromeCookies.ExtractedCookies | LuoguBusAutoCookie__DANGEROUS.py:24-78 | no contract of its own; defined as `{}` without a store or when cleanup fails, otherwise the fold over the selected rows. Its promise is stated by `ExtractedCookiesFromDomain` |
| ChromeCookies.ExtractedCookiesFromDomain | LuoguBusAutoCookie__DANGEROUS.py:24-78 | every extracted cookie has a non-empty value and is only there when the store was read and cleaned up. It has the name of a row of the domain's hosts, and its value is what that row stores |
| ChromeCookies.GetChromeCookies | LuoguBusAutoCookie__DANGEROUS.py:24-78 | the loop over the selected rows builds the specified dictionary. It returns an empty one when there is no store or the cleanup raises |
| AutoCookie.ColouredCodes | LuoguBusAutoCookie__DANGEROUS.py:227-245 | exactly the codes 12, 7, 4, 5, 6 and 2 get a label in the palette; Half AC and unknown codes do not |
| AutoCookie.CsvRowsTwice | LuoguBusAutoCookie__DANGEROUS.py:290-315 | the CSV has two rows per record, both equal to that record's row, in record order |
| AutoCookie.CreateCsv | LuoguBusAutoCookie__DANGEROUS.py:278-321 | nothing is written for no records; otherwise the header and every record's row twice |
| AutoCookie.Credentials | LuoguBusAutoCookie__DANGEROUS.py:358-378 | when the browser supplied both cookies non-empty, the run uses them; otherwise it uses both typed lines, stripped. It has both credentials exactly when the browser supplied both, or each typed line has a non-whitespace character |
| AutoCookie.Run | LuoguBusAutoCookie__DANGEROUS.py:346-398 | the run exits for missing credentials or an empty fetch exactly in those cases. Otherwise it exports the fetched 100 records with the user's id, the sheet titled `刷题记录` with the specified rows, styled with this script's colours, and the doubled CSV |
| LuoguMain.ColouredCodes | LuoguBusMain.py:82-100 | exactly the codes 12, 7, 4, 5, 6 and 2 get a label in the palette; Half AC and unknown codes do not |
| LuoguMain.CsvRows | LuoguBusMain.py:147-164 | the CSV has one row per record, equal to that record's row, in record order |
| LuoguMain.CreateCsv | LuoguBusMain.py:136-170 | nothing is written for no records; otherwise the header and every record's row once |
| LuoguMain.GenerateDiary | LuoguBusMain.py:175-205 | `main` exits for missing credentials exactly when a typed line is all whitespace, and for an empty fetch exactly when the fetch is empty. Otherwise it exports the fetched 100 records, the sheet titled `刷题记录` with the specified rows, styled with this script's colours, and the CSV |

## Left out

- The registry lookup of Chrome's directory, the `os.walk` search for `Cookies` files and the choice of the newest one by modification time are not modelled. The chosen database is a `Browser` input, and "no file found" is an absent store.
- The copy to a temporary directory, SQLite's execution of the query and `conn.close()` are not modelled. The rows stored in the database are an input; the query's `WHERE` clause is modelled.
- `shutil.rmtree` runs only on the success path. Its failure, which turns the whole result into `{}`, is the flag `cleanupSucceeds`. A temporary directory left behind by an earlier failure is not modelled.
- `CryptUnprotectData` (DPAPI) and AES-GCM with the UTF-8 decode are uninterpreted function parameters. The model claims nothing about the cryptography itself, such as authentication of the tag.
- SQLite promises no row order without `ORDER BY`. The stored rows stand for the rows in the order the query yields them, and that order decides which row wins in the dictionary fold.
- Reading `Local State`, its JSON and the base64 decoding of `encrypted_key` are not modelled. The key input is the decoded bytes, or none when any of these steps fails.
- The HTTP request, its headers and parameters, `raise_for_status`, the timeout and the JSON decoding are not modelled. The server's decoded answer is an input, and any failure among them is `Failed`.
- A record lacking `submitTime` or `status`, or a response lacking `currentData.records.result`, raises. In `fetch_submissions` the exception gives `[]`; later it ends the run. This model represents a record with those fields always present.
- A JSON `null` is not distinguished from an absent field, since `Record` has no way to express it. A null `time` or `memory` would print `Nonems` or `NoneKB`; the model prints `0ms`. A null `pid` or `title` would give an empty cell rather than `未知` or `Unknown`. A null `problem` makes `.get` raise, which ends the run; the model treats it like an absent one.
- `datetime.fromtimestamp(..).strftime(..)` is the parameter `fmt`, so the time zone and calendar are not modelled.
- Failures while exporting are not modelled: a timestamp `datetime.fromtimestamp` rejects, a failing `wb.save` or a CSV file that cannot be opened. The automatic script catches them and exits with status 1; `LuoguBusMain.py` stops with the exception. In the model, `Run` and `GenerateDiary` always export once records are fetched.
- openpyxl's column widths, `freeze_panes`, the thin borders and `wb.save` are not modelled. Every cell that gets an alignment also gets the same thin border, so the border is implied by the alignment map.
- The CSV writer's text encoding (`utf-8-sig`, quoting, line endings) is not modelled. Rows are kept as their field values.
- The banners, prints, output file names and their timestamps, and the `ImportError` checks are not modelled.
