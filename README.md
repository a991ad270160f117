# Water-level telemetry receiver, modelled in Dafny

A Raspberry Pi receives one telemetry line per reading from an STM32 board
over a serial link. Each line has the form `RAIN=<int>,LEVEL=<text>,SERVO=<token>`.
The receiver `raspberry/uart_receiver.py` parses each line into a tuple
`(rain_mm, level, servo)` and inserts it as a row of the MariaDB table
`water_log`. When an insert raises a database error and the connection then
reports that it is no longer connected, it reconnects and ensures the table
again; a connection lost while the loop waits for a line is noticed only when
the next insert fails, and that line is dropped.

The model covers three parts:

- the parser `parse_line`, with Python's `split`, `strip`, `upper` and `int`
  written out over strings (`startswith` is the sequence prefix operator);
- the schema step `ensure_table`;
- the receive loop, including the `get_db_connection` retry loop it calls at
  start-up and after losing the connection.

Files:

- `text.dfy` (module `Text`): `str.isspace`, `strip`, `split`, `join` and
  ASCII `upper`.
- `numbers.dfy` (module `Numbers`): `int(text)` and `str(n)` for decimal
  integers.
- `parser.dfy` (module `Telemetry`): the line format and `parse_line`, with
  its failure cases as a datatype. It reports `FieldCount`,
  `FieldFormat(field)` and `Numeric` where the code raises `ValueError`.
- `examples.dfy` (module `ParserExamples`): the documented example line and
  the edge cases.
- `receiver.dfy` (module `Ingestion`):
  - the table as an append-only row sequence with an "exists" flag;
  - one pass of the loop as a specification function `Handle`;
  - the rows of a run as `Rows`;
  - the class `Receiver`, whose methods change its `table` and `connected`
    fields the way `main` reassigns `conn` and `cursor` and writes through
    them.

Three things the code gets from outside are parameters of the model:

- The serial port is the sequence of lines read.
- The database driver's verdict on each insert is an `InsertOutcome`: committed,
  rejected with the connection still live, or rejected with the connection
  lost.
- The number of failed connection attempts before one succeeds is a parameter
  of each reconnection.

## Model

| member | source | states |
|---|---|---|
| Text.Strip | raspberry/uart_receiver.py:57-59 | `strip()` leaves no whitespace at either end, never lengthens its input, and returns empty exactly when the input is all whitespace |
| Text.StripFrame | raspberry/uart_receiver.py:57-59 | stripping any whitespace from around a trimmed string gives that string back |
| Text.StripSplits | raspberry/uart_receiver.py:57-59 | every string is whitespace, then its stripped text, then whitespace |
| Text.StripIdempotent | raspberry/uart_receiver.py:57-70 | stripping twice is stripping once |
| Text.StripKeyed | raspberry/uart_receiver.py:57-70 | stripping a field that starts with a key keeps the key, the whitespace after it, and the stripped value |
| Text.Split | raspberry/uart_receiver.py:53 | `split(',')` gives one more piece than there are commas, no piece contains a comma, and joining the pieces with commas gives the line back |
| Text.SplitJoin | raspberry/uart_receiver.py:53 | splitting undoes joining when no piece contains the separator |
| Text.SplitThree | raspberry/uart_receiver.py:53-54 | three comma-free pieces joined by commas split back into exactly those three |
| Text.UpperChar | raspberry/uart_receiver.py:73 | a lower-case ASCII letter becomes its capital, every other character is kept, and no lower-case letter comes out |
| Text.Upper | raspberry/uart_receiver.py:73 | `upper()` keeps the length and replaces each character by its capital in place: every lower-case ASCII letter becomes its own capital, no lower-case letter is left, and every other character is kept |
| Numbers.ParseInt | raspberry/uart_receiver.py:72 | `int()` succeeds exactly on an optional `+` or `-` followed by at least one ASCII digit, and the sign of the result follows the written sign |
| Numbers.LeadingZeros | raspberry/uart_receiver.py:72 | leading zeros do not change the value of a numeral |
| Numbers.ParseIntValue | raspberry/uart_receiver.py:72 | `int()` of an optional sign, any run of leading zeros and the numeral of `n` is `n` with the written sign, so `"007"` is 7, `"+5"` is 5 and `"-0"` is 0 |
| Numbers.ParseIntToString | raspberry/uart_receiver.py:72 | `int(str(n)) == n` for every integer, negative ones included |
| Telemetry.KeyOf | raspberry/uart_receiver.py:61-66 | each expected key ends in its only `=`, contains no comma and does not start with whitespace |
| Telemetry.AfterFirst | raspberry/uart_receiver.py:68-70 | `split('=', 1)[1]` is the suffix after the first `=`, and that `=` is the first one |
| Telemetry.ValueOf | raspberry/uart_receiver.py:68-70 | a field's value is trimmed |
| Telemetry.ServoFlag | raspberry/uart_receiver.py:73 | the servo value is always 0 or 1 |
| Telemetry.ParseLine | raspberry/uart_receiver.py:48-75 | a line fails with a field-count error exactly when it does not hold two commas; a parsed servo value is 0 or 1 and a parsed level is trimmed |
| Telemetry.FieldValue | raspberry/uart_receiver.py:57-70 | whitespace around a field and around its value is ignored: the key is found and the value is the stripped text after it |
| Telemetry.ParseFields | raspberry/uart_receiver.py:53-75 | for any line with the three keys in order, commas only as separators, and any whitespace before each field, the result depends on the rain value alone: numeric error when it is not an integer, otherwise the integer with the stripped level and the flag of the stripped servo token |
| Telemetry.WhitespaceIgnored | raspberry/uart_receiver.py:57-70 | padding fields and values with whitespace gives the same result as writing them unpadded |
| Telemetry.RoundTrip | raspberry/uart_receiver.py:48-75 | for every integer, comma-free trimmed level and comma-free token, parsing the formatted line gives back the integer, the level and the flag of the stripped token |
| Telemetry.RoundTripTrimmed | raspberry/uart_receiver.py:70-73 | the round trip for a token with no surrounding whitespace, which reaches `upper()` as written |
| Telemetry.RainMustBeInteger | raspberry/uart_receiver.py:68-72 | a formatted line fails with a numeric error exactly when its stripped rain value is not an integer; otherwise the stored rain value is that integer, with no range check |
| Telemetry.KeysCheckedInOrder | raspberry/uart_receiver.py:61-72 | the first field, in wire order, whose stripped text lacks its key is the one reported; a numeric error implies all three keys were present |
| Telemetry.ServoOnExactly | raspberry/uart_receiver.py:73 | the flag is 1 exactly for a two-letter token `o`/`O` followed by `n`/`N`, and 0 for everything else, the empty token included |
| ParserExamples.DocumentedExample | raspberry/uart_receiver.py:48-51 | `"RAIN=23,LEVEL=정상,SERVO=ON"` parses to `(23, "정상", 1)` |
| ParserExamples.TwoFields | raspberry/uart_receiver.py:53-55 | `"RAIN=5,LEVEL=위험"` fails with a field-count error |
| ParserExamples.NonNumericRain | raspberry/uart_receiver.py:68-72 | a rain value whose first character is not a digit or a sign, such as `abc`, `ABC` or `é5`, is a numeric error whatever the other fields hold |
| ParserExamples.EmptyRain | raspberry/uart_receiver.py:68-72 | an empty or blank rain value is a numeric error |
| ParserExamples.KeysAreCaseSensitive | raspberry/uart_receiver.py:61-62 | a lower-case `rain=` key fails the rain field, whatever follows |
| ParserExamples.ServoTokens | raspberry/uart_receiver.py:73 | `on` and `oN` give 1; `OFF`, the empty token and `onn` give 0 |
| ParserExamples.PaddedOn | raspberry/uart_receiver.py:70-73 | `On` padded with whitespace still gives 1 |
| ParserExamples.LevelKeepsLaterEquals | raspberry/uart_receiver.py:68-69 | a level `a=b` comes back as `a=b`: only the first `=` separates key from value |
| Ingestion.CreateIfNotExists | raspberry/uart_receiver.py:37-45 | `CREATE TABLE IF NOT EXISTS` leaves a table that exists and holds exactly the rows it held before |
| Ingestion.CreateIsIdempotent | raspberry/uart_receiver.py:35-45 | creating the table if it does not exist keeps every row, leaves the table existing, and a second call changes nothing |
| Ingestion.Handle | raspberry/uart_receiver.py:97-127 | a pass skips exactly the blank lines; a non-blank line is reported unparsable exactly when it does not parse, with the parser's error; a stored reading is the parse of the stripped line and needs a committed insert; a failed insert means the line parsed and the insert did not commit, and the pass reconnects exactly when the connection was lost |
| Ingestion.Deliver | raspberry/uart_receiver.py:107-127 | a non-blank line is reported unparsable exactly when it does not parse, with the parser's error, and stored exactly when it parses and the insert commits, the stored reading being the parsed one; a failed insert reconnects exactly when the connection was lost |
| Ingestion.Insert | raspberry/uart_receiver.py:113-127 | the insert stores exactly the given reading when it commits; otherwise it fails, and it reconnects exactly when the connection was lost |
| Ingestion.HandleStores | raspberry/uart_receiver.py:97-120 | a pass stores a reading exactly when the line is not blank, parses, and its insert commits, and what it stores is the parsed tuple; a pass skips exactly the blank lines |
| Ingestion.Rows | raspberry/uart_receiver.py:113-127 | a run never stores more rows than it has passes |
| Ingestion.RowsAppend | raspberry/uart_receiver.py:96-127 | the rows of two consecutive stretches of passes are the rows of the first followed by those of the second; earlier rows are never changed |
| Ingestion.DroppedLine | raspberry/uart_receiver.py:98-127 | a pass that stores nothing (blank line, parse failure, failed insert with or without reconnection) drops its line without retrying it, and the other passes store what they would have without it |
| Ingestion.StoredLine | raspberry/uart_receiver.py:118-120 | a pass that stores a reading puts exactly that one row between the rows of the passes before and after it |
| Ingestion.AllStored | raspberry/uart_receiver.py:96-120 | when every pass stores, row k is the reading of line k |
| Ingestion.RowsComeFromStoredPasses | raspberry/uart_receiver.py:96-127 | a reading is in the table's new rows exactly when some pass stored it |
| Ingestion.PassesInOrder | raspberry/uart_receiver.py:96-97 | pass k of a run handles line k with its own insert outcome |
| Ingestion.ConnectWithRetry | raspberry/uart_receiver.py:21-32 | the retry loop returns the first attempt that yields a live connection, and no earlier attempt succeeded |
| Ingestion.Receiver.constructor | raspberry/uart_receiver.py:87-91 | start-up connects and ensures the table, keeping the rows already stored, and leaves the receiver ready |
| Ingestion.Receiver.Connect | raspberry/uart_receiver.py:21-32 | a connection is made after exactly one more attempt than the failed ones, and the table is untouched |
| Ingestion.Receiver.EnsureTable | raspberry/uart_receiver.py:35-45 | the table afterwards is the create-if-not-exists of the table before |
| Ingestion.Receiver.Step | raspberry/uart_receiver.py:97-111 | one pass produces `Handle(line, outcome)`, appends exactly the rows of that pass at the end of the table, and leaves the receiver ready |
| Ingestion.Receiver.ParseAndInsert | raspberry/uart_receiver.py:107-127 | a non-blank line that does not parse adds nothing; otherwise the insert attempt decides |
| Ingestion.Receiver.TryInsert | raspberry/uart_receiver.py:113-127 | a committed insert appends exactly the reading; a failed one appends nothing, and after a lost connection the receiver reconnects and ensures the table, so it is ready again |
| Ingestion.Receiver.Run | raspberry/uart_receiver.py:95-127 | over a sequence of lines the passes are the per-line passes in order, and the table gains exactly `Rows` of them, appended after the rows it already had |

## Left out

- `raspberry/water_gui.py` is not part of this model: it is a Tk display of the latest rows.
- Opening the serial port, `readline()` and its one-second timeout are device I/O. Lines are given as a sequence, and an empty read is an empty line, which the loop skips like a blank one.
- Decoding bytes as UTF-8 with `errors='ignore'` is left to the library. Lines are already-decoded strings.
- The SQL text, the driver, `commit()`, the auto-increment `id` and the `CURRENT_TIMESTAMP` default are foreign calls. The table is the sequence of stored readings. Whether an insert commits, fails on a live connection, or fails on a lost one is an oracle per line. That includes failures caused by column limits such as `VARCHAR(10)` for the level or the `INT` range for the rain value, which assumes the server runs in strict SQL mode: without it, an over-long level is stored truncated and an out-of-range rain value is clamped, so a committed row can differ from the reading, which the model does not capture.
- The five-second `time.sleep` between connection attempts and the console messages are not modelled. The messages appear only as the `Event` a pass returns.
- The `while True` loop is modelled over the finite sequence of lines read before the loop is stopped. The `KeyboardInterrupt` handler and the `finally` block that closes the cursor, connection and port are process and signal handling, and are not modelled.
- Numbers.ParseInt: accepts an optional sign followed by ASCII digits only. Python's `int()` also accepts `_` between digits and non-ASCII decimal digits; it is never given surrounding whitespace here, since the value is stripped first.
- Text.Upper: upper-cases ASCII letters only. Python's `str.upper()` also maps other scripts; no non-ASCII character upper-cases to text made only of `O` and `N`, so the servo flag is the same either way.
- Numbers.ParseInt: has no limit on the number of digits. Python 3.11 and later (and the 3.7.14, 3.8.14, 3.9.14 and 3.10.7 security releases) refuse to convert a decimal string of more than 4300 digits, so on those versions a line whose rain value has more than 4300 digits is a parse error and is dropped, where the model parses it.
- Numbers.ParseIntToString: holds for every integer; on the Python versions above `str(n)` itself raises for a value of more than 4300 digits.
- Telemetry.RoundTrip: holds for every integer, including those of more than 4300 digits that the Python versions above cannot format or parse.
- Ingestion.ConnectWithRetry: a connection attempt either yields a live connection or fails. An attempt whose connection reports `is_connected()` false is retried at once, without the message and the five-second pause that follow an `Error`; the model counts both kinds as failed attempts and does not tell them apart. The model assumes some attempt eventually succeeds; when the database never comes back, the code blocks in this loop forever.
- Ingestion.Receiver.constructor: the cursor, `ensure_table` and the commit at start-up (uart_receiver.py lines 88-91) are assumed to succeed. In the code they are outside any `try`, so a database error there ends `main` with a traceback.
- Ingestion.Receiver.TryInsert: assumes an insert that raises `Error` did not commit. With autocommit off the row becomes durable at `conn.commit()` (uart_receiver.py line 119); if the server applies the commit and the connection drops before the reply, `commit()` raises (for example error 2013, lost connection during query), the loop logs a database error and reconnects, yet the row is in `water_log`. The model's `ConnectionLost` appends nothing, so in such a run the table holds a row that `Run`'s `Rows` and `Ingestion.RowsComeFromStoredPasses` do not account for. The line is still not retried, so no reading is stored twice.
- Ingestion.Receiver.TryInsert: the reconnection after a lost connection (uart_receiver.py lines 124-127: `get_db_connection`, the cursor, `ensure_table`, the commit) is assumed to succeed once a connection is made. In the code these calls sit in the `except Error` branch with no `try` of their own, so a database error there leaves the loop and ends `main`; the model has no outcome for that.
