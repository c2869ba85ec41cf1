# Course catalog front end: a Dafny model

This project models the deterministic core of a small course-catalog web front
end that keeps its PDF course materials in a hosted storage service
(Supabase). The model has three parts:

- **The catalog page's fetch** (`app/page.tsx`). The page lists the storage
  bucket `pdfs` and turns each file name into a course. To build the title it
  removes the leftmost `".pdf"`, turns each `-` and `_` into a space, and
  upper-cases the first character of each run of ASCII word characters. The
  description is a fixed template around the lower-cased cleaned name. The id
  is `course-<index>`, and the material link is the public URL of the original
  name. If the service is not configured, the listing fails or throws, or the
  listing is empty, the page shows a fixed list of six sample courses instead.
  Module `Catalog` holds this logic, with the page state as class
  `Catalog.Home`. Its method `FetchCourses` assigns `courses` once on every
  exit.
- **The client chosen at load time** (`lib/supabaseClient.ts`). The
  configuration check requires both environment values to be present and
  non-empty. A substitute ("mock") client lists nothing, always returns the
  error "Supabase not configured" and never throws. The exported `supabase`
  binding is assigned by an if/else with a try/catch. Module `SupabaseClient`
  holds this logic.
- **The bulk upload script** (`app/upload-pdfs.mjs`). The script takes the
  folder entries ending in `".pdf"`, in directory order. It uploads each one
  under its URI-encoded name with content type `application/pdf` and overwrite
  on. A failed upload skips that file's metadata insert. A successful upload is
  followed by one insert of `{original_name, storage_key}`. A failed insert is
  reported and the loop goes on. Module `Upload` holds this logic: a method
  with a loop that builds the log of requests sent.

Module `Text` holds the shared string helpers:

- ASCII case mapping;
- the JavaScript `\w` class;
- leftmost-occurrence search;
- decimal rendering of an index.

Module `Wrappers` holds `Option`.

Foreign calls enter the model as inputs:

- A storage listing is a `ListResponse`: either `{data, error}` or a rejected
  request.
- `getPublicUrl` and the backend's listing are fields of a `Backend` value.
- `new URL(...)` and `createClient(...)` are oracles that say whether they throw.
- `encodeURIComponent` is a function parameter.
- The outcome of each upload and each insert is an oracle indexed by the
  file's position in the batch.

The title step does not strip a file extension. Its string-pattern
`replace(".pdf", "")` removes the leftmost `".pdf"` wherever it stands:
`report.pdf.pdf` becomes `Report.Pdf` (`Catalog.ExampleReport`). A name
without `".pdf"` passes through unchanged.

The configuration check reads the key from `NEXT_PUBLIC_SUPABASE_ANON`
(lib/supabaseClient.ts line 4). Its own warning (line 32) and the upload script
(app/upload-pdfs.mjs line 8) name `NEXT_PUBLIC_SUPABASE_ANON_KEY` instead.
`Env.anonKey` stands for whatever line 4 reads. The model keeps this mismatch
and does not name the variables.

## Model

| member | source | states |
|---|---|---|
| `Text.IndexOf` | app/page.tsx:44 | the result is an occurrence of the pattern with none earlier, or None when the pattern occurs nowhere |
| `Text.LowerAll` | app/page.tsx:50 | same length; each character is its lower-case form (ASCII letters) and nothing else changes |
| `Text.ReplaceFirst` | app/page.tsx:44 | with no occurrence the string is unchanged; otherwise one occurrence's length is swapped for the replacement's and the text before the leftmost occurrence is kept |
| `Text.Decimal` | app/page.tsx:42 | the rendering of an index is non-empty, all decimal digits, ends in the last digit, and has two or more digits exactly from 10 up |
| `Text.DecimalValue` | app/page.tsx:42 | the rendering is the decimal numeral of n: its digits denote n, with no leading zero |
| `Text.DecimalInjective` | app/page.tsx:42 | two indices with the same rendering are equal |
| `Catalog.SeparatorsToSpaces` | app/page.tsx:45 | same length; every `-` and `_` becomes a space and every other character is kept |
| `Catalog.CapitalizeFrom` | app/page.tsx:46 | the scan from position k upper-cases exactly the characters that start a word-character run, and keeps all others |
| `Catalog.CapitalizeWords` | app/page.tsx:46 | same length; a character is upper-cased if and only if it is a word character not preceded by one; all others are kept |
| `Catalog.StripPdf` | app/page.tsx:44 | a name without ".pdf" is unchanged; a name with one loses exactly 4 characters |
| `Catalog.Cleaned` | app/page.tsx:44-45 | the cleaned name has the stripped name's length and no `-` or `_` |
| `Catalog.Title` | app/page.tsx:43-46 | the title has the stripped name's length and contains no `-` or `_` |
| `Catalog.Description` | app/page.tsx:47-50 | the description starts with "Learn about ", ends with " with this comprehensive course material.", and is as long as those plus the stripped name |
| `Catalog.CourseId` | app/page.tsx:42 | the id is "course-" followed by digits that denote the position |
| `Catalog.ToCourse` | app/page.tsx:41-52 | the course links to the public URL of the original name, shows a material link exactly when that URL is non-empty, and has a "course-" id |
| `Catalog.ShowsMaterialLink` | app/page.tsx:91-105 | a card shows the material link exactly when pdfUrl is present and non-empty, otherwise "Coming Soon" |
| `Catalog.FetchResult` | app/page.tsx:19-60 | whatever the configuration and the backend answer, the page is handed a non-empty list |
| `Catalog.StripPdfRemovesLeftmost` | app/page.tsx:44 | with no ".pdf" the name is unchanged; otherwise exactly the leftmost ".pdf" is cut out, wherever it stands |
| `Catalog.TitleLength` | app/page.tsx:43-46 | the title is 4 shorter than the name if ".pdf" occurs in it, else the same length |
| `Catalog.TitleAt` | app/page.tsx:43-46 | each title character is the stripped name's character, a space for a separator, or upper-cased at a word start; nothing else changes |
| `Catalog.DescriptionMatchesTitle` | app/page.tsx:47-50 | the description is "Learn about " + the lower-cased title + " with this comprehensive course material." |
| `Catalog.ExampleIntro` | app/page.tsx:43-50 | "intro-to-x.pdf" gets the title "Intro To X" and the description about "intro to x" |
| `Catalog.ExampleDataScience` | app/page.tsx:43-46 | "data_science.pdf" gets the title "Data Science" |
| `Catalog.ExampleReport` | app/page.tsx:44-46 | "report.pdf.pdf" gets the title "Report.Pdf": only the first ".pdf" goes, and a word starts after a dot |
| `Catalog.CourseIdInjective` | app/page.tsx:42 | two positions with the same `course-<index>` id are the same position |
| `Catalog.MapListing` | app/page.tsx:36-53 | one course per listing entry, in order, built from that entry and its position |
| `Catalog.MapListingShape` | app/page.tsx:36-53 | same length and order as the listing; course i has id "course-" + i, the derived title and description, and the public URL of the original name; ids are pairwise distinct |
| `Catalog.SampleCoursesShape` | app/page.tsx:116-153 | six samples with ids "1" to "6", pairwise distinct, none with a pdfUrl, so every sample card shows "Coming Soon" |
| `Catalog.FetchFallsBack` | app/page.tsx:19-60 | not configured, a rejected request, an error, or an empty listing each give exactly the sample list |
| `Catalog.FetchMapsListing` | app/page.tsx:36-56 | an error-free, non-empty listing gives exactly the mapped list |
| `Catalog.FetchNeverMixes` | app/page.tsx:56 | the result is the sample list, or a list in which no sample appears and every course has a pdfUrl |
| `Catalog.MockClientShowsSamples` | app/page.tsx:26-33 | through the substitute client the page always shows the sample list |
| `Catalog.MisconfiguredUrlShowsSamples` | lib/supabaseClient.ts:49-57 | configured, but the URL does not parse or the client cannot be built: the page shows the sample list |
| `Catalog.Home.constructor` | app/page.tsx:14 | the courses state starts empty |
| `Catalog.Home.FetchCourses` | app/page.tsx:17-61 | courses becomes the fetch's result (replaced, not appended, so a second fetch against the same backend leaves the same list) and is set exactly once |
| `SupabaseClient.IsConfigured` | lib/supabaseClient.ts:7-9 | true if and only if both the URL and the key are present and non-empty; the URL's syntax is not looked at |
| `SupabaseClient.MockList` | lib/supabaseClient.ts:15-18 | the substitute's listing never rejects, has no data, and carries the non-empty error "Supabase not configured", for any bucket and path |
| `SupabaseClient.MockPublicUrl` | lib/supabaseClient.ts:19 | the substitute's public URL is "" for every name |
| `SupabaseClient.List` | lib/supabaseClient.ts:13-18 | a listing through the substitute is its fixed error; through a real client it is the backend's answer |
| `SupabaseClient.PublicUrl` | lib/supabaseClient.ts:19 | a public URL through the substitute is ""; through a real client it is the backend's URL |
| `SupabaseClient.ClientFor` | lib/supabaseClient.ts:27-58 | mock when a value is missing or empty, mock when URL parsing or construction throws, the real client built from the URL and key otherwise |
| `SupabaseClient.LoadClient` | lib/supabaseClient.ts:25-58 | the load-time statements export the client `ClientFor` describes, a real client only when configured, and assign the binding exactly once |
| `SupabaseClient.ConfiguredYetMock` | lib/supabaseClient.ts:49-57 | with both values set and an unparsable URL, the module reports itself configured while exporting the substitute |
| `Upload.IsPdf` | app/upload-pdfs.mjs:17 | a name is a PDF exactly when its last four characters are ".pdf" (case-sensitive) |
| `Upload.FileOps` | app/upload-pdfs.mjs:24-47 | one file's requests: its upload under the encoded name as "application/pdf" with upsert on, then its insert only if the upload succeeded |
| `Upload.BatchLog` | app/upload-pdfs.mjs:19-57 | the requests for the first n files number n plus the count of successful uploads |
| `Upload.UploadFailures` | app/upload-pdfs.mjs:34-37 | at most n names are reported, each held by a processed position whose upload failed |
| `Upload.InsertFailures` | app/upload-pdfs.mjs:49-53 | no more names are reported as failed inserts than there were successful uploads |
| `Upload.PdfFiles` | app/upload-pdfs.mjs:17 | a name is kept if and only if it is a folder entry ending in ".pdf" (case-sensitive) |
| `Upload.PdfFilesAppend` | app/upload-pdfs.mjs:17 | the filter keeps directory order: filtering a concatenation concatenates the filtered parts |
| `Upload.UploadPdfs` | app/upload-pdfs.mjs:16-58 | the request log and the failure reports are those of the batch over the PDF entries; N uploads and N − M inserts for M failed uploads; insert outcomes do not affect the log |
| `Upload.FileOpsProjections` | app/upload-pdfs.mjs:24-47 | one file's requests contain one upload key, its encoded name, and an insert of its name only when the upload succeeded |
| `Upload.UploadsInOrder` | app/upload-pdfs.mjs:19-32 | the upload keys of the log are the encoded names of the files, one each, in file order |
| `Upload.InsertsOnlyAfterUpload` | app/upload-pdfs.mjs:34-47 | the inserted names are exactly the files whose upload succeeded, in file order |
| `Upload.SuccessesAndFailures` | app/upload-pdfs.mjs:19-57 | every processed file is either uploaded or reported as a failed upload, so successes + failures = N |
| `Upload.InsertFollowsItsUpload` | app/upload-pdfs.mjs:27-47 | every upload uses "application/pdf" with upsert on; every insert comes right after the upload with the same storage key, and that key is the encoded original name |
| `Upload.UploadFailuresIff` | app/upload-pdfs.mjs:34-37 | a name is reported as a failed upload if and only if some processed position holds it and its upload failed |
| `Upload.InsertFailuresIff` | app/upload-pdfs.mjs:49-53 | a name is reported as a failed insert if and only if some processed position holds it, its upload succeeded and its insert failed |
| `Upload.UploadedIff` | app/upload-pdfs.mjs:34-47 | a name is among the uploaded files if and only if some processed position holds it and that position's upload succeeded |

## Left out

- Rendering (JSX, styling), `useEffect` and the late-response-after-unmount race are UI and lifecycle. They are not modelled. Only the choice between a material link and "Coming Soon" is kept, as the predicate `Catalog.ShowsMaterialLink`.
- The hosted service's calls (`createClient`, `storage.list`, `getPublicUrl`, `upload`, `from().insert`) are foreign network calls. Their results are inputs: a `Backend` value, or outcome oracles.
- Listing entries are modelled by their names only. A response with no error but missing data would throw inside the mapping and reach the same catch as `Rejected`. It has no separate case.
- `getPublicUrl` is modelled as a total function that does not throw.
- `new URL` parsing (the WHATWG URL Standard) and `createClient` are modelled only through oracles that say whether they throw.
- `encodeURIComponent` is an uninterpreted function parameter.
- `Text.LowerAll`: lower-cases ASCII letters only. `toLowerCase` also maps non-ASCII letters (the uploaded names may be Cyrillic), so a description of a non-ASCII name is not modelled exactly. The title step is exact, because `\w` without the `u` flag is ASCII-only.
- Console output, and the messages that depend on `NODE_ENV`, are diagnostics only. They are not modelled. The upload script's per-file failure messages are modelled as the returned lists of failed names.
- The upload script's file-system reads (`readdirSync`, `readFileSync`, `path.join`), its dotenv loading, its own unguarded client, and its un-awaited top-level call are process plumbing. The folder listing is an input. The script always talks to a real client.
- Upload.UploadPdfs: every call of the script is assumed to settle, to a value or an error value. The script has no try/catch and its top-level call is not awaited. So a throw from reading the file, from `encodeURIComponent` (a lone surrogate), or a rejected upload or insert would end the batch at that file. The remaining files would then be neither attempted nor reported. The model always processes all N files.
- Catalog.TitleLength: counts Unicode scalar values, as a Dafny `string` does. JavaScript strings count UTF-16 code units, so for names with characters outside the Basic Multilingual Plane (emoji, say) "4 shorter" and the positions of `TitleAt` use a different unit. The title itself is the same either way, because surrogates are non-word characters in both.
- app/test/page.tsx is not part of this model. It maps names to a foreign URL lookup and returns on error.
- The course detail page (app/course/[id]/page.tsx) and its user-visible error messages are not part of this model.
