# Contacts: vCard export, contact actions and image pre-processing

A Dafny model of the core of a small contacts web application. It has
three parts:

- **The bulk export route** (`GET /api/export-all-vcf`). Each contact
  becomes a vCard 3.0 block (RFC 2426), written line by line in a fixed
  order:
  - `BEGIN:VCARD`, then `VERSION:3.0`;
  - the trimmed formatted name `FN`, only when it is not empty;
  - the structured name `N`, always;
  - `TEL`, `EMAIL`, `ORG`, `TITLE`, `NOTE`, `PHOTO;VALUE=URI` and `UID`, each only when its field is truthy;
  - `END:VCARD`.

  Only the note is escaped: `,`, `;` and line end, without escaping the
  backslash. The route answers "not found" for an empty list. Otherwise it
  joins the blocks with a line end and downloads them as
  `all_contacts.vcf`.
- **The server actions** on the `contacts` table: `createContact`,
  `updateContact`, `deleteContact`, `getContacts` (listing, with an
  optional case-insensitive search over seven fields, newest first) and
  `getContactById`. They share the blob-store upload `uploadImage`. Every
  database or blob-store failure becomes a value: an error object, `null`
  or `[]`.
- **The client-side image step** `processImage`. An original over 5 MB is
  refused. Otherwise the compression library's result becomes a WebP file,
  renamed to end in `.webp`.

Modules:

- `Js` models the JavaScript built-ins the code calls:
  - truthiness of nullable strings;
  - `trim`, with the ECMAScript white-space set;
  - `replace(/x/g, …)`;
  - `split` and `join`;
  - number-to-string conversion in template literals.

  It also holds two definitions the code does not call. `LastIndexOf` is
  the reference the `.webp` rename is stated against. The case-insensitive
  containment test stands for the database's `contains` with
  `mode: 'insensitive'`.
- `ContactStore` holds the `Contact` record and the table semantics the
  actions depend on: selection by a where clause, ordering by creation
  time, and find, update and delete by id.
- `Actions` models `lib/actions.ts`.
- `ExportAllVcf` models `app/api/export-all-vcf/route.ts`.
- `ImageUtils` models `lib/image-utils.ts`.

The outside world comes in as parameters:

- `Actions.Services` says, for one run:
  - whether the database call succeeds;
  - what the blob store's `put` returns (None when it throws);
  - the uid `nanoid()` draws;
  - the id and creation time the database gives a new row.
- The compression library's outcome is an `Option<File>`, None when it
  throws.

`generateVcard`, `createContact` and `updateContact` build their results
by reassigning local variables, so they are methods. Each is proved to
compute the function or the outcome its contract names. The rest is pure
and modelled as functions.

## Model

| member | source | states |
|---|---|---|
| ExportAllVcf.GenerateVcard | app/api/export-all-vcf/route.ts:8-51 | the text built by successive appends, each guarded line appended as itself or as nothing, is exactly the rendering of the card's lines, each followed by a line end |
| ExportAllVcf.GeneratedText | app/api/export-all-vcf/route.ts:9-49 | the card is, in order: `BEGIN:VCARD`, `VERSION:3.0`, `FN:` and the trimmed full name when it is not empty, `N:last;first;;;`, then TEL, EMAIL, ORG, TITLE, the escaped NOTE, `PHOTO;VALUE=URI:` and UID, each only when its field is truthy, then `END:VCARD`, every line ended by `\n` |
| ExportAllVcf.VcardTextFrame | app/api/export-all-vcf/route.ts:9-10 | every card begins with `BEGIN:VCARD\nVERSION:3.0\n` and ends with `END:VCARD\n` |
| ExportAllVcf.VcardLineFrame | app/api/export-all-vcf/route.ts:9-10 | a card has at least four lines: the first is `BEGIN:VCARD`, the second `VERSION:3.0`, and the last `END:VCARD` |
| ExportAllVcf.FormattedNameLine | app/api/export-all-vcf/route.ts:12-15 | the content line `FN:` + trimmed full name is among the card's content lines iff that trimmed name is not empty |
| ExportAllVcf.FormattedNameLines | app/api/export-all-vcf/route.ts:12-15 | any content line of the card named FN is exactly `FN:` + the trimmed `first + " " + last` |
| ExportAllVcf.NameLine | app/api/export-all-vcf/route.ts:17 | the content line `N:<last or "">;<first>;;;` is always among the card's content lines |
| ExportAllVcf.NLineWithoutLastName | app/api/export-all-vcf/route.ts:17 | with no (or an empty) last name the N content line is `N:;<first>;;;`, and it is among the card's content lines |
| ExportAllVcf.PropertyPresence | app/api/export-all-vcf/route.ts:12-47 | a property is written on the card iff its condition holds: always for VERSION and N, a non-empty trimmed name for FN, a truthy field for each of TEL, EMAIL, ORG, TITLE, NOTE, PHOTO and UID |
| ExportAllVcf.LineNamedAfter | app/api/export-all-vcf/route.ts:12-47 | a content line whose property name is that of property p is there only when p's condition holds, and it is p's line with p's value |
| ExportAllVcf.CardPropertyNames | app/api/export-all-vcf/route.ts:9-49 | the property names of the card's content lines are `BEGIN`, the names of the properties present in order, and `END` |
| ExportAllVcf.PropertiesInFixedOrder | app/api/export-all-vcf/route.ts:19-47 | the properties written come in strictly ascending fixed order (VERSION, FN, N, TEL, EMAIL, ORG, TITLE, NOTE, PHOTO, UID), so no property is written twice and no two content lines share a property name |
| ExportAllVcf.VcardLinesWithoutNewline | app/api/export-all-vcf/route.ts:8-51 | when no field printed unescaped holds a line end, no content line of the card does either |
| ExportAllVcf.VcardTextLines | app/api/export-all-vcf/route.ts:8-51 | when no field printed unescaped holds a line end, the card's text read as lines is exactly its content lines followed by the empty text after the final line end, so the content-line statements above hold for the text sent |
| ExportAllVcf.EscapeNote | app/api/export-all-vcf/route.ts:36 | the escaped note (three whole-string replacements in turn: `,`, then `;`, then line end) holds no raw line end |
| ExportAllVcf.EscapeNoteIsSinglePass | app/api/export-all-vcf/route.ts:36 | the three replacements in turn equal one pass that escapes each character on its own, so no text a replacement inserts is rewritten by a later one |
| ExportAllVcf.EscapeNoteLength | app/api/export-all-vcf/route.ts:36 | the escaped note is longer than the note by the number of its `,`, `;` and line-end characters |
| ExportAllVcf.EscapeNoteAppend | app/api/export-all-vcf/route.ts:36 | escaping a concatenation is the concatenation of the escaped parts |
| ExportAllVcf.EscapeNoteExample | app/api/export-all-vcf/route.ts:36 | `a,b;c` line end `d` escapes to `a\,b\;c\nd` |
| ExportAllVcf.EscapeNoteNotInjective | app/api/export-all-vcf/route.ts:36 | a real line end and the two characters `\n` escape to the same text, since the backslash is not escaped |
| ExportAllVcf.ExportAll | app/api/export-all-vcf/route.ts:57-67 | the outcome is "not found" with the error `No contacts found to export` iff the list is empty; otherwise it is the download with the vCard content type and the `all_contacts.vcf` attachment header |
| ExportAllVcf.VcardsInOrder | app/api/export-all-vcf/route.ts:61 | the mapped list has one card per contact, the k-th being the card of the k-th contact |
| ExportAllVcf.BulkBody | app/api/export-all-vcf/route.ts:61 | the body of one contact is its card; for more than one, it is the first card, a line end, and the body of the rest |
| ExportAllVcf.BulkBodyLines | app/api/export-all-vcf/route.ts:61 | without raw line ends in the printed fields, splitting the body at line ends gives every card's lines in list order, with one empty line after each card (the blank line between cards, and the final one) |
| ExportAllVcf.BulkDelimiters | app/api/export-all-vcf/route.ts:9-61 | in the body's lines, the `BEGIN:VCARD` and `END:VCARD` lines alternate, begin first, one pair per contact |
| ExportAllVcf.BulkCounts | app/api/export-all-vcf/route.ts:9-61 | the body has exactly as many `BEGIN:VCARD` lines and as many `END:VCARD` lines as there are contacts |
| ExportAllVcf.GetOnDatabaseFailure | app/api/export-all-vcf/route.ts:55-58 | a failing database makes the listing empty, so the route answers "not found" |
| ExportAllVcf.Get | app/api/export-all-vcf/route.ts:53-73 | the route answers "not found" with `No contacts found to export` iff the database fails or the table is empty, and otherwise sends the download headers |
| ExportAllVcf.GetExportsEveryRow | app/api/export-all-vcf/route.ts:53-67 | for a non-empty table whose fields printed unescaped hold no line end, the body's lines hold one `BEGIN:VCARD` and one `END:VCARD` line per row, alternating, begin first |
| Js.Trim | app/api/export-all-vcf/route.ts:12 | `trim` keeps a contiguous slice that only white space surrounds, and the result neither starts nor ends with white space |
| Js.TrimEmptyIff | app/api/export-all-vcf/route.ts:12-13 | the trimmed text is empty iff the text is all white space |
| Js.TrimKeeps | app/api/export-all-vcf/route.ts:12 | every character of the trimmed text is in the original |
| Js.ReplaceAll | app/api/export-all-vcf/route.ts:36 | a global replacement grows the text by one less than the replacement's length per occurrence; the replaced character is gone when the replacement does not hold it |
| Js.Split | lib/image-utils.ts:31 | `split` gives one more part than the separator's occurrences, none of them holding the separator |
| Js.JoinSplit | lib/image-utils.ts:31 | joining the parts of a split with the separator gives the text back |
| Js.SplitAppend | lib/image-utils.ts:31 | splitting `x + sep + y` gives the parts of x followed by the parts of y |
| Js.Join | lib/image-utils.ts:31 | the joined text is empty for no parts, and otherwise starts with the first part and ends with the last |
| Js.IntToString | lib/actions.ts:136 | `${id}` is a non-empty string that starts with `-` iff the number is negative, and its digits denote the number's absolute value |
| ContactStore.Select | lib/actions.ts:157-172 | the rows satisfying the where clause, each as often as in the table, and no other |
| ContactStore.SortNewestFirst | lib/actions.ts:171-174 | a reordering of the rows (same multiset) in descending creation time, rows with a NULL time first |
| ContactStore.FindMany | lib/actions.ts:171-174 | the rows satisfying the where clause, each as often as in the table, ordered newest first |
| ContactStore.InsertByAgeKeepsOrder | lib/actions.ts:173 | inserting a row into a table ordered newest first keeps it so |
| ContactStore.FindUnique | lib/actions.ts:186-188 | a row is found iff one has the id, and the found row is in the table with that id |
| ContactStore.UpdateById | lib/actions.ts:115-127 | fails iff no row has the id; otherwise keeps the length, every id, uid and creation time, rewrites the row with the id, and leaves every other row as it was |
| ContactStore.DeleteById | lib/actions.ts:143-145 | fails iff no row has the id; otherwise no row has the id afterwards and every other row is kept as often as before |
| Actions.UploadImage | lib/actions.ts:27-39 | the blob store is called iff a non-empty file was given; otherwise the result is null, and when called it is what `put` returns (null when it throws) |
| Actions.CreateContact | lib/actions.ts:42-84 | a falsy first name gives `First name is required.` with no upload and no insert; otherwise an upload happens iff a non-empty file was sent, success iff the database works, and on success a single row is appended with the new id, the drawn uid, the creation time, the form's fields and the upload URL; on failure `Failed to create contact.` with the table unchanged |
| Actions.UpdateContact | lib/actions.ts:87-138 | a falsy first name gives `First name is required.` with no upload and no update; an upload happens iff the first name is truthy, delete-image is not `on` and a non-empty file was sent; success iff the database works and a row has the id; the image URL is null under delete-image, else the upload result for a non-empty file, else the current URL; id, uid and creation time never change; failure gives `Failed to update contact with ID <id>.` with the table unchanged |
| Actions.DeleteContact | lib/actions.ts:141-152 | success iff the database works and a row has the id, and then no row has it and every other row is kept; otherwise `Failed to delete contact with ID <id>.` with the table unchanged |
| Actions.SearchClause | lib/actions.ts:157-169 | a falsy query iff no restriction |
| Actions.GetContacts | lib/actions.ts:155-180 | a failing database gives `[]`; otherwise the matching rows, each as often as in the table, ordered newest first |
| Actions.GetContactById | lib/actions.ts:183-194 | a row iff the database works and a row has the id, and then that row; otherwise null |
| Actions.NoQueryListsEverything | lib/actions.ts:157-169 | without a query text the listing is a reordering of the whole table |
| Actions.SearchMatchesAnyField | lib/actions.ts:157-169 | with a query text, a row is listed iff it is in the table and one of first name, last name, phone, email, company, job title or notes contains the text, ignoring case |
| Actions.ListedIffSatisfies | lib/actions.ts:155-175 | a row is listed iff it is in the table and satisfies the where clause |
| Actions.SearchFindsOwnFirstName | lib/actions.ts:160 | searching for a row's own non-empty first name lists it |
| ImageUtils.ProcessImage | lib/image-utils.ts:9-39 | compression is attempted iff the size is at most 5·1024·1024 bytes; a file results iff it was attempted and succeeded, and it is the compressed content named after the stem with `.webp` and typed `image/webp` |
| ImageUtils.SizeGateBoundary | lib/image-utils.ts:11 | exactly 5 MiB passes the gate; one byte more gives null |
| ImageUtils.RefusalIgnoresCompression | lib/image-utils.ts:11-14 | an oversized file gives null without compression, whatever the library would have given |
| ImageUtils.NewFileName | lib/image-utils.ts:31 | the new name always ends in `.webp` |
| ImageUtils.Stem | lib/image-utils.ts:31 | the stem is the text before the last dot, or nothing when there is none |
| ImageUtils.NewFileNameIsStem | lib/image-utils.ts:31 | split on dots, drop the last part, re-join and append `.webp` is the same as stem + `.webp` |
| ImageUtils.RenameKeepsInnerDots | lib/image-utils.ts:31 | only the text after the last dot is dropped, so `a.b.png` becomes `a.b.webp` |
| ImageUtils.RenameWithoutDot | lib/image-utils.ts:31 | a name without a dot becomes `.webp` |
| ImageUtils.RenameTrailingDot | lib/image-utils.ts:31 | `photo.` becomes `photo.webp` |

## Left out

- Logging (`console.error`, `console.log`), toasts and the 1.5 s `setTimeout` pauses in `createContact` and `updateContact`: they are side effects and timing with no bearing on results.
- `revalidatePath('/')` is assumed not to throw. It runs inside the `try` after the write (lib/actions.ts:78, 128 and 146), so if it threw, the action would report failure although the row had changed; the model does not capture that case.
- Nondeterminism and services: `nanoid()`, `Date.now()` in the upload file name, the ids and timestamps the database assigns, and Prisma and Vercel Blob themselves. They enter as the fields of `Actions.Services`. The upload file name is not modelled, because only the URL `put` returns reaches the record.
- The compression algorithm (`browser-image-compression`) and its options (0.8 MB target, 1024 px, quality 0.8): this is a foreign library. Its outcome is a parameter. Only the size of the compressed file reaches the model's `File`; file contents are not modelled.
- The MB figures in the compression log (`toFixed(2)` on floating point): they are only printed.
- `MAX_COMPRESSED_SIZE_MB` is passed only to the library, so it is not a constant of the model.
- HTTP objects: the `Headers`, `Response` and `NextResponse` wrappers become the `ExportResponse` datatype, with the headers as a list of pairs and 404 as `NotFound`.
- The route's 500 branch: `getContacts` catches every store failure and returns `[]`, so the route answers 404, and its catch branch is not reachable through the code shown. The 500 outcome is not modelled.
- `updated_at` is neither read nor written by the code shown, so it is not a field of the model's `Contact`.
- `testDbConnection` in `lib/actions.ts` is not part of this model: it is a diagnostic ping.
- Form entries of the wrong kind (a file where text is expected, and the reverse) are not modelled. Each entry is typed as the code casts it.
- ContactStore.Select: `mode: 'insensitive'` is modelled as ASCII-only lower-casing on both sides. PostgreSQL's Unicode case folding is not modelled.
- ContactStore.SortNewestFirst: ties in `created_at` come out in an order the database leaves unspecified. The model fixes one order (an insertion sort); its contract states only what any order the database may choose satisfies. A NULL `created_at` sorts first, as PostgreSQL orders NULL under `DESC`.
- ExportAllVcf.FormattedNameLine, ExportAllVcf.FormattedNameLines, ExportAllVcf.NameLine, ExportAllVcf.NLineWithoutLastName, ExportAllVcf.LineNamedAfter, ExportAllVcf.CardPropertyNames and ExportAllVcf.PropertiesInFixedOrder speak of the card's content lines, one per property written, and not of the lines of its text. The two agree when no field printed unescaped holds a line end (ExportAllVcf.VcardTextLines). Otherwise such a field splits its line in the text, and the extra piece can read like another property's line: a company `A` line end `TEL:1` gives the text a second `TEL` line.
- ExportAllVcf.GetExportsEveryRow, ExportAllVcf.BulkBodyLines, ExportAllVcf.BulkDelimiters and ExportAllVcf.BulkCounts assume that no field printed unescaped (every field but the note) holds a line end. With such a line end the body has extra lines, and the code does nothing about them.
- The vCard 3.0 text escaping (section 4 of RFC 2426) is only partly implemented by the code: backslash is not escaped, and neither is carriage return. Fields other than the note are not escaped at all. The model keeps the code's behaviour (see ExportAllVcf.EscapeNoteNotInjective). The code writes `PHOTO;VALUE=URI:` with the stored URL, places PHOTO before UID, and fetches no image.
- Strings are sequences of Unicode scalar values, while JavaScript strings are sequences of UTF-16 code units. Lone surrogates cannot be represented, and lengths count code points rather than code units.
