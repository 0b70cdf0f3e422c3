# MyConsoleMailbox: the new-mail synchronizer

MyConsoleMailbox is a console mail notifier. For each configured IMAP account it:

1. Logs in.
2. Lists the message numbers of the inbox with `SEARCH ALL`.
3. Compares them with the numbers it saw last time. Those are kept in a shared JSON file, `mails_ids.json`, keyed by login.
4. Prints the title and sender of every message that is new.

This project models the core of that program in `controllers.py`:

- **`Mailbox.check_new_mails`**
  - Modelled by `Controllers.Mailbox.CheckNewMails`, whose specification function is `Synchronizer.Sync`.
  - The result is the set difference of the server listing and the stored list.
  - The file is written only when that difference is non-empty. The write then stores the whole listing.
- **The seen-set store**
  - `_get_mails_ids_from_json` and `_save_mails_id_to_json` are modelled by module `SeenStore`.
  - The JSON document is a map from login to a list of numbers. The file is a `Store` object whose `file` field is `None` while the file does not exist.
  - The save is a read-modify-write of one entry.
- **`_get_mails_ids_from_server`, after the SEARCH call**
  - Modelled by module `IdList`.
  - The reply data is split on ASCII whitespace, then every token is converted with `int()`.
  - The model proves two things about this parse:
    - It reads back any listing a server writes.
    - The split loses nothing but whitespace.
- **The title/sender selection of `get_header`**
  - Modelled by module `Headers`.
  - A missing Subject becomes `<without title>`.
  - A part that carries a charset label is read as UTF-8.
  - A missing From raises an error.
- **The account loop of `Application.run`**
  - Modelled by module `Controllers`.
  - It is a fold (`RunAll`, one `Step` per account) that threads the file from one account to the next.
  - The imperative loop `Application.Run` is proved equal to the fold.
  - Any exception ends the whole run.

The model does not contact a server. Each account meets a `Remote` value instead. A `Remote` says:

- Whether the login is accepted.
- The bytes of the SEARCH reply.
- The message stored under each number, reduced to the first decoded chunk of its Subject and From headers.

The proved properties are:

- **Exact delta.** A number is reported iff it is listed and not stored. Every number is reported once.
- **Selective writes.**
  - Nothing is written when nothing is new.
  - When something is new, the entry becomes the whole listing, not the union with the old entry.
  - The save changes only its own login's entry, and inserts it when missing.
- **Reads of a missing file or entry.** A missing file or a missing entry reads as empty. After the check, `mails_ids` holds the previous entry.
- **Idempotence.**
  - A second check against the same listing reports nothing and writes nothing.
  - Take a first run that raised no exception over accounts with distinct logins.
  - A second run over the same answers then reports "no new mails" for every account and leaves the file as it was.
  - Both conditions are needed. Accounts sharing a login overwrite each other's entry, so the second run reports again.
- **Run order and frame.**
  - A run reports the accounts in configuration order.
  - It stops at the first exception.
  - It never touches the entry of a login that is not configured.
- **Parser round trip.** The parser reads back any listing rendered from a list of numbers.
- **Header fallback.** A missing Subject gives `<without title>`. The charset label never changes the result. The sender comes only from From.

## Model

| member | source | states |
|---|---|---|
| IdList.Split | controllers.py:90 | every token of the split is non-empty and contains no whitespace byte |
| IdList.SplitKeepsNonSpace | controllers.py:90 | joining the tokens gives back exactly the non-whitespace bytes of the reply, in order |
| IdList.ParseTokensSpec | controllers.py:91 | the listing parses iff every token parses; the result then has one number per token, in order |
| IdList.ParseIntDecimal | controllers.py:91 | `int()` reads a decimal image back as its number, also with a leading `+` or `-` |
| IdList.ParseIntRejects | controllers.py:91 | a token with a non-digit byte that is not a leading sign is rejected, and so are a lone sign and an empty token |
| IdList.RenderParse | controllers.py:90-92 | parsing a space-separated decimal listing of `ids` yields exactly `ids` |
| SeenStore.Loaded | controllers.py:95-99 | an absent file reads as the empty document, a present one as its content |
| SeenStore.Entry | controllers.py:100-103 | a login without an entry reads as the empty list, one with an entry as that entry |
| SeenStore.Put | controllers.py:111-112 | the login's entry is replaced, or inserted when missing; every other entry is kept and no key is dropped |
| SeenStore.EntryAfterPut | controllers.py:105-116 | after a save the login reads back what was written and every other login reads as before |
| SeenStore.Store.Dump | controllers.py:115-116 | the file afterwards holds exactly the dumped document |
| Synchronizer.Delta | controllers.py:84-87 | a number is in the delta iff it is in the listing and not in the stored list; no number occurs twice |
| Synchronizer.SyncSpec | controllers.py:82-87 | the delta's set is the set difference and its length that set's size; it is empty iff the stored list covers the listing; an empty delta leaves the file untouched, otherwise the entry becomes the whole listing |
| Synchronizer.SyncFrame | controllers.py:105-116 | a check never changes another login's entry and never removes a key |
| Synchronizer.SyncCovers | controllers.py:80-87 | after a check the stored entry contains every listed number |
| Synchronizer.SyncIdempotent | controllers.py:84-86 | checking again against the same listing gives an empty delta and no write |
| Synchronizer.SyncStoresOnlyReported | controllers.py:82-87 | every number stored after a check was either stored before or reported by that check |
| Synchronizer.RelistingLosesMail | controllers.py:112 | with the second SEARCH as written, a message arriving between the two listings is stored but never reported |
| Synchronizer.DeltaCovered | controllers.py:84-85 | a listing covered by the stored list has an empty delta |
| Synchronizer.FirstListingDelta | controllers.py:84 | [1,2,3] against an empty stored list gives [1,2,3] |
| Synchronizer.GrownListingDelta | controllers.py:84 | [1,2,3,4] against the stored [1,2,3] gives [4] |
| Synchronizer.SharedLoginOverwrites | controllers.py:105-116 | two accounts with the same login overwrite each other's entry: listing [1], then [2], then [1] again reports [1] the third time too |
| Synchronizer.ThreeChecks | controllers.py:80-87 | three checks of one account (listing [1,2,3] twice, then [1,2,3,4]) report [1,2,3], nothing, then [4], and store the listings |
| Headers.Decode | controllers.py:132-137 | text without a charset is kept; labelled bytes become their UTF-8 text, or fail when they are not UTF-8; unlabelled bytes stay bytes |
| Headers.GetHeader | controllers.py:128-139 | a header is produced iff the subject (if any) and the From chunk decode; a missing Subject gives `<without title>`; the subject is checked before the sender |
| Headers.LabelIgnored | controllers.py:132-137 | changing the charset label of the Subject or From chunk never changes the outcome |
| Headers.FieldsIndependent | controllers.py:128-139 | the sender never depends on the Subject header and the title never on the From header |
| Controllers.ReportFor | controllers.py:55-59 | a table report iff there are rows, carrying those rows, else the no-new-mail notice; always for this login |
| Controllers.NewMailHeadersSpec | controllers.py:52-53 | the rows exist iff every fetch succeeds, one per new mail in order; otherwise the error is that of the first fetch to fail |
| Controllers.NewMailHeadersHalt | controllers.py:52-53 | once a fetch fails, later mails are never fetched |
| Controllers.CollectHeaders | controllers.py:50-53 | the loop returns the rows of every new mail in order, or the first fetch error |
| Controllers.StepCompleted | controllers.py:45-59 | an account that raises nothing was logged in to, had its listing read, and added exactly one report, keeping earlier ones |
| Controllers.StepFile | controllers.py:49 | the file after an account is the file its check leaves |
| Controllers.StepQuiet | controllers.py:49-59 | an account that logs in and finds nothing new gets the no-new-mail notice and leaves the file as it was |
| Controllers.RunAllHalts | controllers.py:45-53 | after the first exception no later account is processed |
| Controllers.AuthenticationAbortsRun | controllers.py:45-49 | a rejected login ends the run at that account, keeping earlier reports and file |
| Controllers.RunAllFrame | controllers.py:45-49 | a run never changes the entry of a login that is not configured |
| Controllers.RunAllCompleted | controllers.py:45-59 | a run without exception prints one report per account, in configuration order |
| Controllers.RunAllPrefixCompleted | controllers.py:45-53 | a run that ends without exception had none after any prefix of the accounts |
| Controllers.RunAllCompletedAt | controllers.py:45-49 | a run without exception logged in to every account and read every listing |
| Controllers.RunAllCoversAt | controllers.py:45-49 | after a run without exception and with distinct logins, each account's entry holds every number its server listed |
| Controllers.RunAllQuiet | controllers.py:45-59 | when every account logs in and finds nothing new, each gets the no-new-mail notice, in order, and the file is not written |
| Controllers.RunTwice | controllers.py:45-59 | if the first run raised no exception and the logins are distinct, a second run over the same answers reports no new mail for every account and leaves the file unchanged |
| Controllers.Mailbox.constructor | controllers.py:64-69 | the credentials are stored and `mails_ids` starts empty |
| Controllers.Mailbox.GetMailsIdsFromJson | controllers.py:94-103 | returns this login's stored list, empty when the file or the entry is absent |
| Controllers.Mailbox.SaveMailsIdToJson | controllers.py:105-116 | the file becomes the document read before, with only this login's entry replaced by the listing |
| Controllers.Mailbox.CheckNewMails | controllers.py:80-87 | `mails_ids` becomes the stored list; a listing `int()` rejects fails before any write; otherwise the result is the duplicate-free set difference, the file is untouched when it is empty and gets the whole listing otherwise, as `Sync` |
| Controllers.Application.CheckAccount | controllers.py:46-59 | one pass of the loop for an account reached without exception: its reports, file and exception are those of one `Step` |
| Controllers.Application.Run | controllers.py:43-59 | the loop's reports, final file and ending exception are those of the fold `RunAll` over the configured accounts |

## Left out

- Sockets and the IMAP protocol are left out. That covers connecting, logging in, selecting, searching and fetching (controllers.py:71-78,90,118-122). A `Remote` value per account stands for the server's answers. A rejected login is `authenticates == false`. So is a failed connection: `IMAP4_SSL(host=...)` (controllers.py:73) raises before the login and also ends the run, and the model reports both as `AuthenticationFailed`. A fetch of a missing number is `FetchFailed`.
- Reading and writing the JSON file is not modelled as file I/O. The file is the `Store.file` field, with `None` for an absent file. Malformed JSON and I/O errors other than a missing file are not modelled.
- Loading the YAML configuration is left out. So is the interactive first-run prompt loop (controllers.py:20-41). The accounts are given as a sequence.
- The prompting defaults of the `Mailbox` constructor are left out (controllers.py:65-67). Their prompt texts are swapped. The model's constructor always takes all three values.
- `email.header.decode_header` and `message_from_bytes` are a foreign library. A `Message` carries the first decoded chunk of Subject and From. The outcome of `.decode('utf-8')` is abstracted as the chunk's `utf8` field.
- Rendering with `tabulate` and `print` is left out. A `Report` value stands for what is printed.
- `search_in_mails` (controllers.py:142-144) has no body, so there is nothing to model.
- mailbox.py is a command-line shim. It calls `Application.run` with three arguments, but the method takes none. mailbox.py is not part of this model.
- The code has no login syntax check, login filter or keyword search. The model has none either.
- Login keys are compared exactly, as the code's dictionary lookups do.
- The charset label is ignored: labelled bytes are always read as UTF-8, as the code does.
- A missing Subject and a Subject that fails to decode are treated differently. The placeholder title is used only for a missing Subject, because only that raises the caught TypeError.
- A failed check or fetch ends the whole run, because the code catches nothing around the loop.
- `int()` on bytes also accepts `_` between digits. The parser accepts only ASCII digits with an optional sign, and rejects such tokens.
- Synchronizer.Delta fixes one order for the result: first occurrences in the listing. Python leaves the order of `list(set(...))` unspecified; CPython gives `[8, 1]` for `list(set([1, 8]))`, where the model gives `[1, 8]`. How the contracts depend on it:
  - Independent of it: `Delta`, `SyncSpec`, `SyncIdempotent` and `SharedLoginOverwrites`. They speak only of elements and uniqueness, or of an empty or one-element delta.
  - Fixed by it:
    - `CheckNewMails` is tied to `Sync`'s delta.
    - `FirstListingDelta` and `ThreeChecks` state the exact sequence `[1, 2, 3]`.
    - The order of a report's rows and which failing fetch counts as the first (`NewMailHeadersSpec`, `Step`) follow the model's order, not CPython's.
- Controllers.Mailbox.CheckNewMails: the second SEARCH issued by `_save_mails_id_to_json` is assumed to return the same listing as the first. The as-written behaviour is under Findings.

## Findings

| source | as written | input that shows it | evidently intended | confidence | as-written member | corrected member |
|---|---|---|---|---|---|---|
| controllers.py:112 | `check_new_mails` computes the delta from the SEARCH at line 83, but `_save_mails_id_to_json` issues a second SEARCH and stores that listing | no file yet; the first SEARCH returns [1]; message 2 arrives, so the second returns [1, 2]; 2 is stored but never reported, and the next check reports nothing | store the listing the delta was computed from, so every stored number was stored before or reported | not executed | Synchronizer.RelistingLosesMail | Synchronizer.SyncStoresOnlyReported |
