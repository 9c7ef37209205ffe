# SystemReporter core in Dafny

SystemReporter is a Windows inventory script. It collects system, OS/licensing, hardware,
Office, CPU and process information and renders it as an HTML report. Most of it wraps host
APIs. This project models the deterministic pieces between those reads, with every host read
(registry, `uuid.getnode()`, `psutil`, `subprocess.run`, environment, file system) given as an
input value:

- **Product key** (`productkey.dfy`). The `DigitalProductId` blob's bytes 52..66 are decoded by
  repeated long division by 24. The remainders are mapped through the alphabet
  `BCDFGHJKMPQRTVWXY2346789`, reversed, and grouped five by five with hyphens. The masked form
  keeps only the last five characters. The decoder is an imperative method with the source's
  nested loops. Its inner loop is `DivideBy24`, whose invariant is "old value = 24 × new value +
  remainder, every entry still a byte".
- **Windows fields** (`windows.dfy`): the seven OS/licensing fields in display order, and what
  the `Product Key` field can show.
- **MAC address** (`mac.dfy`): the 48-bit node as six colon-separated lowercase hex octets, most
  significant first.
- **Process snapshot** (`processes.dfy`): the readable processes, stable-sorted by CPU reading
  in descending order (a missing reading counts as 0), cut with Python slice semantics.
- **Office detection** (`office.dfy`):
  - the version-token table and the scan of each registry path's subkeys;
  - the Word → Excel → Registry choice for `Detected Via`;
  - the file-system fallback and the final `Status: Not detected`.
- **Text scrapers** (`scrapers.dfy`):
  - the `wmic` value rows and the hardware "nothing found → Error" collapse;
  - the CPU name line;
  - the `InstalledOn` scan of the update history;
  - the split at the first colon of the install-date line.

Supporting modules:
- `text.dfy`: Python's `strip`, `split()`, `split(c)`, `split(c, 1)`, `join` and `in` on strings, with `str.isspace()`'s character set.
- `digits.dfy`: positional numerals.
- `fields.dfy`: an insertion-ordered `dict` as a sequence of pairs.
- `wrappers.dfy`: `Option`.

The decoder reads the 15-byte window as a **little-endian** number: the inner loop starts at
index 14, so byte 66 is the most significant digit and byte 52 the least. The window is often
described as big-endian; the model follows the code (`LittleEndian(window, 256)`).

## Model

| member | source | states |
|---|---|---|
| ProductKey.ShiftOr | SystemReporter.py:86 | `(k << 8) \| b` with k < 24 and a byte b equals 256·k + b (the shifted remainder and the byte share no bits) |
| ProductKey.DivideBy24 | SystemReporter.py:84-88 | one pass of the inner loop divides the 15-byte number by 24 in place: old value = 24 × new value + k, with k < 24 and every entry still in 0..255 |
| ProductKey.DecodeWindow | SystemReporter.py:80-93 | the nested loop yields exactly the window number's 25 low base-24 digits, most significant first, spelled in the alphabet and grouped in fives with hyphens |
| ProductKey.DecodeProductKey | SystemReporter.py:68-95 | no key when the value cannot be read or has fewer than 67 bytes (index 14 of the short slice raises and is caught); otherwise the decoding of bytes 52..66 and of nothing else |
| ProductKey.KeyGroups | SystemReporter.py:93 | the comprehension gives ⌈n/5⌉ groups, group i being characters 5i up to 5i+5 (or the end) |
| ProductKey.DecodedKeyShape | SystemReporter.py:79-93 | every decoded key has 29 characters, a hyphen exactly at positions 5, 11, 17 and 23, and an alphabet symbol everywhere else |
| ProductKey.DecodedKeyValue | SystemReporter.py:81-92 | reading a decoded key back as a base-24 numeral gives the window value modulo 24^25 |
| ProductKey.MaskKey | SystemReporter.py:47 | "Not available" for a missing or empty key; otherwise `XXXXX-XXXXX-XXXXX-XXXXX-` followed by the key's last min(5, length) characters, which are a suffix of the key |
| ProductKey.MaskedDecodedKey | SystemReporter.py:45-49 | the masked form of a decoded key has 29 characters and ends in the key's final group of five |
| Windows.WindowsInfo | SystemReporter.py:38-62 | the Windows dict's keys are the seven names `Windows Edition`, `Windows Version`, `Windows Build`, `Product ID`, `Product Key`, `Last Update`, `Installation Date`, in that order; the first three hold the `win32_ver()` parts, `Product ID` the id or "Not available", `Product Key` the masked decoded key, `Last Update` and `Installation Date` the results of their own runs |
| Windows.ShownProductKey | SystemReporter.py:45-61 | the `Product Key` field is "Not available" exactly when no key was decoded; otherwise it is the mask prefix plus the decoded key's last five characters |
| MacAddress.MacOctets | SystemReporter.py:33-34 | the address has 17 characters; group k holds `(node >> 8(5-k)) & 0xff` as two hex digits, with a colon after each of the first five groups |
| MacAddress.MacShape | SystemReporter.py:33-34 | position i holds a colon exactly when i mod 3 = 2, and a lowercase hex digit otherwise |
| MacAddress.MacRoundTrip | SystemReporter.py:33-34 | parsing the address back gives the node modulo 2^48, so exactly the low 48 bits are shown |
| Processes.Collect | SystemReporter.py:385-390 | a process is collected exactly when its record could be read; vanished or access-denied processes are skipped |
| Processes.CollectOne | SystemReporter.py:386-390 | a readable record is appended exactly once; a skipped one adds nothing |
| Processes.CollectAppend | SystemReporter.py:385-390 | records are appended in enumeration order: collecting two runs in turn is the first run's records followed by the second's (with `CollectOne`, this determines the list) |
| Processes.Insert | SystemReporter.py:393 | inserting one record keeps a non-increasing list non-increasing and adds exactly that record |
| Processes.SortByCpu | SystemReporter.py:393 | the sort is a permutation (same length, same multiset) and non-increasing in the CPU reading, a missing reading counted as 0 |
| Processes.SortKeepsTies | SystemReporter.py:393 | the sort is stable: for every key, the records with that key appear in their original order |
| Processes.SliceTo | SystemReporter.py:394 | `s[:limit]` is a prefix with min(limit, n) entries for limit ≥ 0, and max(n + limit, 0) entries for a negative limit |
| Processes.Snapshot | SystemReporter.py:382-394 | the snapshot has the slice length above, is non-increasing, is a prefix of the sorted list, is a sub-multiset of the collected records, and holds only readable processes |
| Processes.DefaultSnapshotSize | SystemReporter.py:382-394 | with the default `limit=20`, the snapshot holds min(20, n) of the n readable processes |
| Processes.SnapshotKeepsTies | SystemReporter.py:392-394 | for every CPU reading, the snapshot's records with that reading are an initial run of the collected ones, in enumeration order |
| FieldMap.Set | SystemReporter.py:152-153 | `d[k] = v` makes `k` map to `v` and leaves every other key unchanged; an existing key keeps its place, a new one is appended |
| FieldMap.SetKeepsDistinct | SystemReporter.py:152-153 | assigning a field never gives a dict two entries with the same name |
| Scrapers.OutputLines | SystemReporter.py:147-148 | lines exist exactly for a run with exit code 0; no line contains a newline, and joining them with newlines gives back the stripped output |
| Scrapers.SecondLine | SystemReporter.py:159-164 | a value exists exactly when the run succeeded and its stripped output has a second line, and it is that line stripped of surrounding whitespace |
| Scrapers.TwoColumnsTokens | SystemReporter.py:148-153 | a row exists exactly when there is a second line with at least two tokens; the first column is its first token, the second column is the remaining tokens joined by single spaces, and re-splitting it gives those tokens back |
| Scrapers.HardwareInfo | SystemReporter.py:138-188 | each query feeds only its own fields: `Manufacturer` and `Model` are the computer-system run's columns, `Serial Number` is the BIOS run's second line, the motherboard fields are the baseboard run's columns; the result is the lone `Error` entry exactly when no run gave a value |
| Scrapers.HardwareCollapse | SystemReporter.py:182-183 | the hardware fields are exactly the single `Error` entry when, and only when, all three queries gave nothing |
| Scrapers.HardwareKeys | SystemReporter.py:144-183 | the hardware dict's keys, in order: `Manufacturer`, `Model` when the computer-system query gave a row, then `Serial Number` when the BIOS query gave a line, then the two motherboard keys when the baseboard query gave a row; `Error` alone when none did |
| Scrapers.HardwareSystemFields | SystemReporter.py:144-155 | `Manufacturer` and `Model` are present exactly when the computer-system query gave a row, and hold its two columns |
| Scrapers.HardwareSerialField | SystemReporter.py:157-166 | `Serial Number` is present exactly when the BIOS value is given, and holds it |
| Scrapers.HardwareBoardFields | SystemReporter.py:168-180 | the two motherboard fields are present exactly when the baseboard query gave a row, and hold its two columns |
| Scrapers.CpuInfo | SystemReporter.py:276-284 | `Name` is the stripped second line of `wmic cpu get name` when there is one; otherwise, and for every other field, the psutil fields are unchanged; a new `Name` is appended after the psutil fields and an existing one keeps its place |
| Scrapers.FindInstalledOn | SystemReporter.py:115-120 | the answer comes from the first line that contains `InstalledOn` and has at least three tokens: its tokens after the first, joined by single spaces; there is none exactly when no line qualifies |
| Scrapers.LastUpdateFound | SystemReporter.py:107-124 | the update time differs from "Unknown" exactly when the run succeeded and some line qualifies, and then it is the first qualifying line's answer |
| Scrapers.LastUpdateOfFound | SystemReporter.py:114-120 | when a line qualifies, its answer is returned, and it is never the word "Unknown" (it always contains a space) |
| Scrapers.StripGuardRedundant | SystemReporter.py:114-119 | a qualifying line forces `stdout.strip()` to be non-empty, so the emptiness test never hides a match |
| Scrapers.InstallDate | SystemReporter.py:126-136 | "Unknown" when the run failed or the output has no colon; otherwise the text after the first colon with surrounding whitespace removed |
| Office.DetectedVia | SystemReporter.py:227-237 | `Word` exactly when the Word install root has a `Path`; `Excel` exactly when only the Excel one does; `Registry` exactly when neither does |
| Office.RecordVersion | SystemReporter.py:215-237 | a matching subkey sets `Version` to the table's label, sets `Install Path` from the Common install root when it has one (else keeps the old value), sets `Detected Via`, and changes nothing else; into empty fields the names are written in that order, and over a record that already has `Version` and `Detected Via` only a new `Install Path` is appended |
| Office.RegistryKeys | SystemReporter.py:210-239 | with a registry match the keys are `Version`, `Install Path`, `Detected Via` when the first match has a Common path; `Version`, `Detected Via`, `Install Path` when only a later WOW64 match has one; and `Version`, `Detected Via` when neither has |
| Office.OfficeKeys | SystemReporter.py:190-262 | the printed order of the Office fields in every case: the registry orders above, `Version` then `Install Path` for the file-system fallback, and `Status` alone when nothing is found |
| Office.FirstVersion | SystemReporter.py:213-215 | finds the first subkey name in the version table, or reports that none is |
| Office.ScanSubkeysFirst | SystemReporter.py:213-239 | the subkey loop records only the first subkey in the version table (the `break`), and changes nothing when there is none |
| Office.ScanOnePath | SystemReporter.py:210-241 | a registry path that cannot be opened is skipped; an open one contributes the record of its first known version |
| Office.ScanOfficePaths | SystemReporter.py:205-241 | the two-path scan is the native path's record with the WOW64 path's record written over it |
| Office.RegistryResult | SystemReporter.py:243-257 | with a registry match, the scan result is reported unchanged: no fallback and no status |
| Office.RegistryVersion | SystemReporter.py:210-239 | with a registry match, `Version` and `Detected Via` come from the WOW64 path's match when it has one (the `break` leaves only the subkey loop), else from the native one |
| Office.RegistryNoStatus | SystemReporter.py:256-257 | a registry match never reports a `Status` |
| Office.RegistryInstallPath | SystemReporter.py:219-224 | `Install Path` is the WOW64 match's Common path when it has one, else the native match's |
| Office.JoinPath | SystemReporter.py:246-247 | `os.path.join(root, name)` puts a backslash between the two exactly when the root is non-empty, is not a bare drive `X:`, and does not already end in `\` or `/`; otherwise it concatenates them |
| Office.DefaultCommonPaths | SystemReporter.py:245-248 | with neither `ProgramFiles` variable set, the folders checked are `C:\Program Files\Microsoft Office` and `C:\Program Files (x86)\Microsoft Office` |
| Office.FirstExisting | SystemReporter.py:250-254 | returns the first listed folder that exists, and nothing exactly when none exists |
| Office.FileSystemFallback | SystemReporter.py:244-254 | with no registry match and an existing folder, the result is exactly the file-system version label and the first existing folder |
| Office.NotDetected | SystemReporter.py:256-257 | the result is exactly `Status: Not detected` when, and only when, neither registry path lists a known version and neither conventional folder exists |

## Left out

- Host reads are inputs, not modelled: `platform`, `socket`, `uuid.getnode()`, `psutil`, `winreg`, `subprocess.run`, `os.environ` and `os.path.exists`. A command that raises is the `Raised` input. A registry key that cannot be opened is a path missing from the registry map.
- `get_system_info` fields other than `MAC Address` (lines 22-32): they are copies of host reads.
- `get_windows_product_id` (lines 97-105): it is a single registry read, given to `WindowsInfo` as an optional string shown with the "Not available" default.
- The broad `except` blocks that wrap a whole probe (lines 63-64, 185-186, 259-260, 286-287, 396-397): once the host reads are inputs, nothing inside them can raise.
- The masking `try` (lines 45-49): the decoder already catches everything and returns `None`.
- CPU counts, frequencies and usage (lines 267-273): float formatting and one-second sampling; the model takes these fields as an input.
- `get_memory_info`, `get_disk_info` and `get_network_info` (lines 291-380): float size and percentage formatting, and repackaging of `psutil` objects.
- `generate_html_report` (lines 399-648) and `main` (lines 650-696): templating, file output, console prompts and `os.startfile`.
- Office: Windows compares registry paths, environment names and file paths case-insensitively; the model compares them exactly.
- JoinPath: follows `ntpath.join` for a plain or drive-letter root and a relative second part (the only one used is `Microsoft Office`); UNC share roots and absolute second parts are not modelled.
- Processes: CPU readings are exact reals, so NaN readings and their effect on sorting are not modelled.
