# LinuxSaga workshop site: registration pipeline and page state machines

This project models, in Dafny, the parts of the LinuxSaga workshop website that carry
behaviour rather than layout, and proves what they promise:

- **Registration form (client)**: the five text fields, the payment screenshot and the
  `isSubmitting` flag. The change handlers, the 5 MiB file check, the multipart body
  (`image` first, then the fields in key order) and the settling on `res.ok` are modelled.
  The submit handler is split at its `await` into `HandleSubmit` and `Settle`, so the state
  while the request is outstanding is visible. The network outcome is a parameter.
- **`/register` handler (server)**: the upload middleware names files after `Date.now()`
  plus the original extension, capped at 5 MiB, under `uploads`. The handler checks for the
  file, uploads it to the media store, deletes the local copy and inserts the record. Both
  external calls are outcome parameters. The class keeps the local files, the remote assets,
  the records and the order of effects.
- **Prizes**: three cards that unlock one at a time or all at once, and the
  `allUnlocked` flag. The invariant `allUnlocked <==> every card unlocked` is proved.
- **Glitch text and terminal reveal**: interval-driven tick machines that reveal a string
  one character at a time. Each interval callback is one `Tick`. Random glyphs are a
  parameter drawn from the glyph set.
- **Mouse particles and matrix rain**: per-frame buffer updates. Only the integer parts
  are modelled: a particle's `life` and each column's drop counter.
- **Navbar**: the scrolled flag and the mobile menu flag.

Modules: `Wrappers` (Option), `RegistrationForm`, `RegistrationServer`, `Prizes`,
`GlitchText`, `TerminalReveal`, `MouseParticles`, `MatrixRain`, `Navbar`.

## Behaviour of note

- On success the handler answers with the default status 200 and `{success: true}`, with no
  message.
- Without a file the handler answers 400 with the message `"Image required"`.
- On a media upload failure the local file is **not** deleted. The unlink only runs after a
  successful upload, before the insert, so a failed insert leaves the uploaded asset behind.
- The stored document is the whole request body with `paymentScreenshot` overwritten by the
  upload's URL. The schema keeps only its own paths (`ToRecord`), and a `createdAt` in the
  body takes the place of the default instant.
- Two uploads with the same extension in the same millisecond are stored under the same name.
- The client sends the text fields as they are; it does not check them for emptiness. Only
  the browser's `required` attribute does that, and it is not modelled.

## Model

| member | source | states |
|---|---|---|
| `RegistrationForm.FormData.With` | src/components/RegistrationForm.tsx:26-31 | the field named by the event takes the new value; every other field keeps its value |
| `RegistrationForm.Entries` | src/components/RegistrationForm.tsx:69 | `Object.entries(formData)` yields five pairs: every field appears under its own key with its current value, and no key appears twice |
| `RegistrationForm.BuildBody` | src/components/RegistrationForm.tsx:63-71 | the body has exactly six parts: the `image` file part, then one text part per field, in key order, with the field's current value |
| `RegistrationForm.RegistrationBodyUnique` | src/components/RegistrationForm.tsx:63-71 | the description of the body determines it completely: two bodies for the same file and fields are equal |
| `RegistrationForm.Form.constructor` | src/components/RegistrationForm.tsx:15-23 | initial state: empty fields with experience `beginner`, no file, not submitting |
| `RegistrationForm.Form.HandleInputChange` | src/components/RegistrationForm.tsx:26-31 | replaces exactly the named field; the other four fields keep their values |
| `RegistrationForm.Form.HandleFileChange` | src/components/RegistrationForm.tsx:33-46 | no selected file changes nothing; a file over 5*1024*1024 bytes is refused with a notice and the held file is unchanged; a file of at most that size (the limit itself included) is held |
| `RegistrationForm.Form.HandleSubmit` | src/components/RegistrationForm.tsx:48-76 | with no held file: a notice, no request, no state change; otherwise `isSubmitting` is set and exactly one request carrying the six-part body is built; fields and file unchanged |
| `RegistrationForm.Form.Settle` | src/components/RegistrationForm.tsx:78-103 | a status in 200..299 resets the fields to the initial values and drops the file; a non-ok status or a thrown error leaves fields and file untouched; `isSubmitting` is false on every path |
| `RegistrationForm.Form.SubmitEnabled` | src/components/RegistrationForm.tsx:355 | the submit button is enabled exactly while no submission is outstanding |
| `RegistrationForm.Form.PressSubmit` | src/components/RegistrationForm.tsx:355 | while `isSubmitting` the disabled button dispatches nothing, so no second request is built; otherwise it behaves as `HandleSubmit` |
| `RegistrationForm.SubmitOnce` | src/components/RegistrationForm.tsx:48-104 | a full round from a fresh form: the sent body carries the typed field, and the form resets only on an ok status |
| `RegistrationServer.StoredName` | server/index.ts:39-41 | the stored file name is a single path portion (no `/`) that starts with a digit, whatever the original name |
| `RegistrationServer.StoredPath` | server/index.ts:38-40 | the stored file lies directly in `uploads/`, and the last portion of its path is the stored name |
| `RegistrationServer.Decimal` | server/index.ts:40 | `Date.now()` rendered in decimal: at least one digit, only digits, no leading zero except for 0 |
| `RegistrationServer.ParseDecimalOfDecimal` | server/index.ts:40 | the decimal rendering reads back as the same number |
| `RegistrationServer.ExtName` | server/index.ts:40 | `path.extname` yields either nothing or a suffix of the last path portion that starts with its last `.` and holds no other `.` or `/` |
| `RegistrationServer.ExtNameOfPlainName` | server/index.ts:40 | a plain name `stem.ext` has the extension `.ext` |
| `RegistrationServer.StoredNameRecoversParts` | server/index.ts:39-41 | a stored file name splits back into the instant it was stored at (its leading digits) and the original name's extension (the rest) |
| `RegistrationServer.StoredNamesDifferAcrossInstants` | server/index.ts:39-41 | files stored at different milliseconds get different names |
| `RegistrationServer.StoredNamesCollideWithinInstant` | server/index.ts:39-41 | two files with the same extension stored in the same millisecond get the same name, whatever their original stems |
| `RegistrationServer.ReceivedFields` | server/index.ts:62 | the request body has a key exactly for each text part's name, and each value is the value of a text part under that name |
| `RegistrationServer.ReceivedFile` | server/index.ts:62 | there is a file exactly when some file part is named `image`, and then it is the file of such a part |
| `RegistrationServer.Document` | server/index.ts:76-79 | `{...req.body, paymentScreenshot: url}` has the body's keys plus `paymentScreenshot`, maps that to the URL, and keeps every other body value |
| `RegistrationServer.ToRecord` | server/index.ts:47-55 | the schema keeps its own paths; `createdAt` defaults to the insert instant exactly when the document has none; `paymentScreenshot` is set exactly when the document has one |
| `RegistrationServer.RecordFor` | server/index.ts:47-55 | the written record's `paymentScreenshot` is the upload's secure URL even if the body supplied one; the five schema fields come from the body; `createdAt` is the insert instant unless the body supplied one |
| `RegistrationServer.ReceivedRegistrationBody` | server/index.ts:62 | the body the form builds arrives with its screenshot as the `image` file and its five fields as the request body |
| `RegistrationServer.SubmittedFormIsRecorded` | server/index.ts:76-79 | end to end: the record written for a submitted form holds the form's five values, the secure URL and the insert instant |
| `RegistrationServer.RecordForFormFields` | server/index.ts:76-79 | the record for the five form fields and a URL holds those values, the URL, and the insert instant |
| `RegistrationServer.HandlerOutcome` | server/index.ts:64-85 | the handler answers only 200, 400 or 500; success exactly with 200; 400 exactly without a file, and only then with a message; a record is written only after the upload and the local delete |
| `RegistrationServer.MissingFileIsRejected` | server/index.ts:65-67 | with no file the reply is 400 `{success: false, message: "Image required"}`; no upload, no delete, no record |
| `RegistrationServer.UploadFailureKeepsLocalFile` | server/index.ts:70-85 | a failed upload answers 500 `{success: false}`; the local file is not deleted and nothing is created or written |
| `RegistrationServer.InsertFailureOrphansAsset` | server/index.ts:70-85 | a failed insert after a successful upload answers 500 `{success: false}`; the local file is already deleted and the remote asset stays |
| `RegistrationServer.SuccessIffRecordWritten` | server/index.ts:64-85 | a record is written exactly when the reply reports success, which is exactly when the file, the upload and the insert all succeed; success is status 200; the local file is deleted exactly when an asset was created |
| `RegistrationServer.Server.StoreUpload` | server/index.ts:36-44 | the middleware stores a file of at most 5*1024*1024 bytes at `uploads/` + decimal instant + extension and adds it to the local files |
| `RegistrationServer.Server.Register` | server/index.ts:60-87 | the handler's reply and its state changes follow `HandlerOutcome`; the effects run in the order upload, unlink, insert; there is no unlink after a failed upload, and at most one record is appended |
| `Prizes.UnlockMatching` | src/components/PrizesSection.tsx:56-58 | the map keeps length, order and every field but `unlocked`; a card is unlocked afterwards exactly when it was before or carries the id |
| `Prizes.UnlockEvery` | src/components/PrizesSection.tsx:67 | every card is unlocked; length, order and other fields are unchanged |
| `Prizes.EveryUnlocked` | src/components/PrizesSection.tsx:59 | `every` holds exactly when each card is unlocked |
| `Prizes.UnlockAbsentIdIsIdentity` | src/components/PrizesSection.tsx:56-58 | unlocking an id that no card carries leaves the list unchanged |
| `Prizes.UnlockIsIdempotent` | src/components/PrizesSection.tsx:56-58 | unlocking the same id twice equals unlocking it once |
| `Prizes.UnlockEveryAbsorbsUnlock` | src/components/PrizesSection.tsx:56-68 | unlocking everything after a single unlock equals unlocking everything |
| `Prizes.PrizesSection.constructor` | src/components/PrizesSection.tsx:19-52 | three cards `ctf`, `quiz`, `all`, all locked, and `allUnlocked` false |
| `Prizes.PrizesSection.UnlockPrize` | src/components/PrizesSection.tsx:54-64 | cards with the id are unlocked and nothing is relocked; the flag is raised once every card is open; `allUnlocked <==> every card unlocked` is preserved |
| `Prizes.PrizesSection.UnlockAll` | src/components/PrizesSection.tsx:66-69 | every card is unlocked and the flag is raised; the invariant is preserved |
| `Prizes.PrizesSection.ClickCard` | src/components/PrizesSection.tsx:111 | a click on a locked card unlocks it; a click on an unlocked card changes nothing |
| `Prizes.PrizesSection.ShowsUnlockAllButton` | src/components/PrizesSection.tsx:86 | the unlock-all button is shown exactly while some card is still locked |
| `GlitchText.Iterations` | src/components/GlitchText.tsx:19-23 | ticks per character position by intensity (2, 3, 5); always at least 1 |
| `GlitchText.GlitchFrame` | src/components/GlitchText.tsx:37-45 | a revealing tick displays the first `k` characters followed by glyph-set members, exactly as long as the text |
| `GlitchText.AtEndIffAllTicksDone` | src/components/GlitchText.tsx:47-51 | with the counters in range, the tick count reaches `(len+1)*iterations` exactly when the position is past the end |
| `GlitchText.GlitchText.constructor` | src/components/GlitchText.tsx:11-15 | intensity `medium` unless given; before anything runs nothing is displayed, so the element renders `len` spaces, and it is not glitching |
| `GlitchText.GlitchText.Rendered` | src/components/GlitchText.tsx:72 | the element always shows exactly as many characters as the text has: the displayed text, or blanks before anything is displayed |
| `GlitchText.GlitchText.EnterView` | src/components/GlitchText.tsx:13 | the element is observed in view, once; nothing else changes |
| `GlitchText.GlitchText.Start` | src/components/GlitchText.tsx:25-35 | only once in view does the effect start glitching and set up its interval |
| `GlitchText.GlitchText.Tick` | src/components/GlitchText.tsx:35-57 | while the position is within the text, the tick displays the revealed prefix plus glyphs and advances the counters, which stay in range; the tick after `(len+1)*iterations` revealing ticks clears the interval, displays the text and stops glitching |
| `TerminalReveal.FullCommand` | src/components/TerminalReveal.tsx:20 | the typed line is `$ ` followed by the command |
| `TerminalReveal.TerminalReveal.constructor` | src/components/TerminalReveal.tsx:10-15 | the command is `cat` unless given; initially nothing is typed, the cursor shows and the content is hidden |
| `TerminalReveal.TerminalReveal.EnterView` | src/components/TerminalReveal.tsx:12 | the element is observed in view, once; nothing else changes |
| `TerminalReveal.TerminalReveal.Start` | src/components/TerminalReveal.tsx:17-24 | only once in view is the typing interval set up |
| `TerminalReveal.TerminalReveal.Tick` | src/components/TerminalReveal.tsx:24-35 | a typing tick shows the first `currentIndex` characters and moves on by exactly one; the typed line is always a prefix of the full line; the tick after `len+1` typing ticks stops the interval and schedules the reveal |
| `TerminalReveal.TerminalReveal.RevealTimeout` | src/components/TerminalReveal.tsx:30-33 | the cursor is cleared and the content shown only after the typing has stopped, with the full line typed |
| `TerminalReveal.TypeAll` | src/components/TerminalReveal.tsx:24-33 | after `len+1` ticks the whole line is typed and the content is still hidden; the next tick stops the interval |
| `MouseParticles.Aged` | src/components/MouseParticles.tsx:46-53 | a particle one frame older: its life drops by one, and it is removed exactly when that leaves it at 0 or less |
| `MouseParticles.Frame` | src/components/MouseParticles.tsx:42-53 | after a frame no particle with life 0 or less remains, and the list is no longer than before |
| `MouseParticles.FrameDistributes` | src/components/MouseParticles.tsx:42-53 | a frame treats each particle on its own, so survivors keep their relative order and new particles do not affect older ones |
| `MouseParticles.FramesKeepLongerLived` | src/components/MouseParticles.tsx:42-53 | after `n` frames exactly the particles whose life exceeded `n` remain, each decremented by exactly `n`, in order |
| `MouseParticles.FreshParticleLifetime` | src/components/MouseParticles.tsx:34 | a fresh particle survives 49 frames with life 1 and is removed in the 50th |
| `MouseParticles.FrameKeepsLivesInRange` | src/components/MouseParticles.tsx:42-53 | a frame keeps every life within 1..50 |
| `MouseParticles.MouseParticles.constructor` | src/components/MouseParticles.tsx:6 | the effect is enabled exactly when the window is at least 768 wide; the list starts empty |
| `MouseParticles.MouseParticles.CreateParticle` | src/components/MouseParticles.tsx:28-37 | appends exactly one particle with life 50 |
| `MouseParticles.MouseParticles.HandleMouseMove` | src/components/MouseParticles.tsx:61-65 | appends exactly two particles with life 50 |
| `MouseParticles.MouseParticles.Animate` | src/components/MouseParticles.tsx:42-53 | the reverse loop with `life--` and `splice` leaves exactly `Frame` of the old list, and lives stay within 1..50 between frames |
| `MatrixRain.Columns` | src/components/MatrixRain.tsx:24 | the column count is `floor(width/14)` |
| `MatrixRain.DropStep` | src/components/MatrixRain.tsx:50-53 | a drop becomes either old+1 or 1; it restarts only when `drop*14 > height` and the random draw fired; a drop at row 1 or below stays there |
| `MatrixRain.Fallen` | src/components/MatrixRain.tsx:34-54 | a draw keeps the number of columns, and every column moves down one row or restarts at row 1, restarting only from below the bottom edge; no drop goes above row 1 |
| `MatrixRain.MatrixRain.constructor` | src/components/MatrixRain.tsx:24-25 | `floor(width/14)` drops, all 1 |
| `MatrixRain.MatrixRain.Draw` | src/components/MatrixRain.tsx:34-54 | the in-place loop leaves exactly `Fallen` of the old drops; the length is unchanged and every drop stays at least 1 |
| `Navbar.Navbar.constructor` | src/components/Navbar.tsx:7-8 | initially not scrolled and the menu is closed |
| `Navbar.Navbar.HandleScroll` | src/components/Navbar.tsx:11-13 | scrolled exactly when `scrollY > 50`, strictly; the menu is untouched |
| `Navbar.Navbar.ScrollToSection` | src/components/Navbar.tsx:26-30 | the menu is closed afterwards, whatever its prior state |
| `Navbar.Navbar.ToggleMenu` | src/components/Navbar.tsx:74 | the menu flag is negated |
| `Navbar.ToggleTwice` | src/components/Navbar.tsx:74 | two presses of the menu button restore the state |

## Left out

- Network, media store, database, clock and randomness are parameters. These are the fetch
  outcome, the upload and insert results, `now`, the glyphs, and the per-column restart flags.
- The express, multer, cloudinary and mongoose internals, CORS, environment loading, the
  database connection and the creation of the upload directory are not modelled.
- RegistrationServer.Server.StoreUpload: the middleware's rejection of a file over the cap
  is not modelled, because its response is decided by the middleware. The member requires the
  size to be within the cap.
- RegistrationServer.Server.Register: `unlinkSync` is taken to succeed, because the file
  stored for this request is among the local files. A throw there would also answer 500.
  This holds for one request at a time. Concurrent requests are not modelled: two uploads
  with the same extension in one millisecond share a path (`StoredNamesCollideWithinInstant`),
  so the second overwrites the first file, and one request's unlink removes a file the other
  still uploads or unlinks.
- RegistrationServer.ReceivedFields: repeated field names are not modelled, because the form
  never sends two parts with one name. The middleware would turn them into arrays.
- RegistrationServer.ReceivedFile: `upload.single("image")` fails the whole request on a
  file part under any other name, or on a second `image` file. The model skips other file
  parts and takes the first `image` file instead. The form sends exactly one file part, named
  `image`, so the two agree on every request the form builds.
- RegistrationServer.ExtName follows Node's posix `path.extname`, which is not in the
  repository. Windows path rules are not modelled.
- The mongoose schema's type casting of values is not modelled. The record keeps the strings
  the body supplied.
- RegistrationForm.Form.HandleInputChange: the event's `name` is one of the five fields,
  because only those inputs are wired to the handler. An arbitrary name, which would add a
  key, is not modelled.
- The browser's `required` and `accept="image/*"` checks, toast wording, all JSX, styling and
  animation variants are not modelled.
- Timing: interval speeds, start delays and the 200 ms reveal pause are not modelled. The
  `delay = 0` defaults of GlitchText and TerminalReveal therefore have no counterpart. The
  other defaults do: `glitchIntensity = 'medium'` and `command = "cat"` are the constructors'
  default arguments.
  Callbacks are discrete steps, and interleavings with other events are not modelled.
- MouseParticles: positions, velocities, sizes and alpha are floats. Drawing is canvas
  calls. The never-cancelled animation loop is one `Animate` call per frame.
- MatrixRain: glyph choice, colour and brightness are drawing. A resize changes `height`
  (a parameter of `Draw`) but never the number of columns, as in the code.
- Navbar: the smooth scroll to the target element is a browser call.
