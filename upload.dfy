/**
 * The bulk upload script (app/upload-pdfs.mjs): every ".pdf" entry of the
 * folder is uploaded under its URI-encoded name, and each successful upload
 * is followed by one metadata insert. Failures are reported and the batch
 * goes on. The folder listing is an input; `encodeURIComponent` is a
 * function parameter; what the backend answers to the i-th upload and the
 * i-th insert are oracles indexed by the file's position in the batch.
 */
module Upload {
  import opened Text

  const Bucket := "pdfs"
  const Table := "pdfs"
  const PdfSuffix := ".pdf"
  const ContentType := "application/pdf"

  /** One request the script sends to the backend. */
  datatype Op =
    | UploadObject(bucket: string, key: string, contentType: string, upsert: bool)
    | InsertRow(table: string, originalName: string, storageKey: string)

  /** `f.endsWith(".pdf")`, case-sensitive. */
  predicate IsPdf(f: string)
    ensures IsPdf(f) <==> |f| >= 4 && f[|f| - 4..] == ".pdf"
  {
    EndsWith(f, PdfSuffix)
  }

  /** The folder entries that end in ".pdf", in directory order. */
  function PdfFiles(entries: seq<string>): (r: seq<string>)
    ensures |r| <= |entries|
    ensures forall f :: f in r <==> f in entries && IsPdf(f)
  {
    if entries == [] then []
    else (if IsPdf(entries[0]) then [entries[0]] else []) + PdfFiles(entries[1..])
  }

  /** The requests for one file: its upload, and its insert when the upload succeeded. */
  function FileOps(fileName: string, encode: string -> string, uploaded: bool): (r: seq<Op>)
    ensures |r| == if uploaded then 2 else 1
    ensures r[0] == UploadObject(Bucket, encode(fileName), ContentType, true)
    ensures uploaded ==> r[1] == InsertRow(Table, fileName, encode(fileName))
  {
    [UploadObject(Bucket, encode(fileName), ContentType, true)] +
    (if uploaded then [InsertRow(Table, fileName, encode(fileName))] else [])
  }

  /** The requests sent for the first `n` files of the batch. */
  function BatchLog(files: seq<string>, encode: string -> string, uploadOk: nat -> bool, n: nat): (r: seq<Op>)
    requires n <= |files|
    ensures |r| == n + |Uploaded(files, uploadOk, n)|
  {
    if n == 0 then [] else BatchLog(files, encode, uploadOk, n - 1) + FileOps(files[n - 1], encode, uploadOk(n - 1))
  }

  /** The files among the first `n` whose upload succeeded, in order. */
  function Uploaded(files: seq<string>, uploadOk: nat -> bool, n: nat): seq<string>
    requires n <= |files|
  {
    if n == 0 then [] else Uploaded(files, uploadOk, n - 1) + (if uploadOk(n - 1) then [files[n - 1]] else [])
  }

  /** The files among the first `n` whose upload failed, in order: each is reported once. */
  function UploadFailures(files: seq<string>, uploadOk: nat -> bool, n: nat): (r: seq<string>)
    requires n <= |files|
    ensures |r| <= n
    ensures forall f :: f in r ==> exists i :: 0 <= i < n && files[i] == f && !uploadOk(i)
  {
    if n == 0 then [] else UploadFailures(files, uploadOk, n - 1) + (if uploadOk(n - 1) then [] else [files[n - 1]])
  }

  /** The files among the first `n` that were uploaded but whose insert failed. */
  function InsertFailures(files: seq<string>, uploadOk: nat -> bool, insertOk: nat -> bool, n: nat): (r: seq<string>)
    requires n <= |files|
    ensures |r| <= |Uploaded(files, uploadOk, n)|
  {
    if n == 0 then []
    else InsertFailures(files, uploadOk, insertOk, n - 1) +
         (if uploadOk(n - 1) && !insertOk(n - 1) then [files[n - 1]] else [])
  }

  /** The storage keys of the uploads in a request log, in order. */
  function UploadKeys(log: seq<Op>): seq<string> {
    if log == [] then []
    else UploadKeys(log[..|log| - 1]) + (if log[|log| - 1].UploadObject? then [log[|log| - 1].key] else [])
  }

  /** The original names of the inserted rows in a request log, in order. */
  function InsertedNames(log: seq<Op>): seq<string> {
    if log == [] then []
    else InsertedNames(log[..|log| - 1]) + (if log[|log| - 1].InsertRow? then [log[|log| - 1].originalName] else [])
  }

  /**
   * `uploadPDFs`: one upload attempt per PDF file, in order; an insert only
   * after a successful upload; a failed insert is reported and the loop goes on.
   */
  method UploadPdfs(entries: seq<string>, encode: string -> string, uploadOk: nat -> bool, insertOk: nat -> bool)
    returns (log: seq<Op>, uploadFailures: seq<string>, insertFailures: seq<string>)
    ensures var files := PdfFiles(entries);
            log == BatchLog(files, encode, uploadOk, |files|) &&
            uploadFailures == UploadFailures(files, uploadOk, |files|) &&
            insertFailures == InsertFailures(files, uploadOk, insertOk, |files|)
    ensures |UploadKeys(log)| == |PdfFiles(entries)|
    ensures |InsertedNames(log)| == |PdfFiles(entries)| - |uploadFailures|
  {
    var files := PdfFiles(entries);
    log, uploadFailures, insertFailures := [], [], [];
    for i := 0 to |files|
      invariant log == BatchLog(files, encode, uploadOk, i)
      invariant uploadFailures == UploadFailures(files, uploadOk, i)
      invariant insertFailures == InsertFailures(files, uploadOk, insertOk, i)
    {
      var fileName := files[i];
      var safeName := encode(fileName);
      log := log + [UploadObject(Bucket, safeName, ContentType, true)];
      if !uploadOk(i) {
        uploadFailures := uploadFailures + [fileName];
        continue;
      }
      log := log + [InsertRow(Table, fileName, safeName)];
      if !insertOk(i) {
        insertFailures := insertFailures + [fileName];
      }
    }
    UploadsInOrder(files, encode, uploadOk, |files|);
    InsertsOnlyAfterUpload(files, encode, uploadOk, |files|);
    SuccessesAndFailures(files, uploadOk, |files|);
  }

  lemma {:induction false} UploadKeysAppend(a: seq<Op>, b: seq<Op>)
    ensures UploadKeys(a + b) == UploadKeys(a) + UploadKeys(b)
    decreases |b|
  {
    if b == [] {
      assert a + b == a;
    } else {
      var b' := b[..|b| - 1];
      assert (a + b)[..|a + b| - 1] == a + b';
      UploadKeysAppend(a, b');
    }
  }

  lemma {:induction false} InsertedNamesAppend(a: seq<Op>, b: seq<Op>)
    ensures InsertedNames(a + b) == InsertedNames(a) + InsertedNames(b)
    decreases |b|
  {
    if b == [] {
      assert a + b == a;
    } else {
      var b' := b[..|b| - 1];
      assert (a + b)[..|a + b| - 1] == a + b';
      InsertedNamesAppend(a, b');
    }
  }

  /** One file's requests hold one upload key, and an inserted name only if the upload succeeded. */
  lemma FileOpsProjections(fileName: string, encode: string -> string, uploaded: bool)
    ensures UploadKeys(FileOps(fileName, encode, uploaded)) == [encode(fileName)]
    ensures InsertedNames(FileOps(fileName, encode, uploaded)) == if uploaded then [fileName] else []
  {
    var ops := FileOps(fileName, encode, uploaded);
    var u := [ops[0]];
    assert u[..0] == [];
    assert UploadKeys(u) == [encode(fileName)];
    assert InsertedNames(u) == [];
    if uploaded {
      assert ops[..1] == u;
    } else {
      assert ops == u;
    }
  }

  /** Processing one more file adds one upload key: its encoded name. */
  lemma BatchLogUploadStep(files: seq<string>, encode: string -> string, uploadOk: nat -> bool, n: nat)
    requires 0 < n <= |files|
    ensures UploadKeys(BatchLog(files, encode, uploadOk, n)) ==
              UploadKeys(BatchLog(files, encode, uploadOk, n - 1)) + [encode(files[n - 1])]
  {
    UploadKeysAppend(BatchLog(files, encode, uploadOk, n - 1), FileOps(files[n - 1], encode, uploadOk(n - 1)));
    FileOpsProjections(files[n - 1], encode, uploadOk(n - 1));
  }

  /** The encoded names of the first `n` files, in order. */
  function EncodedNames(files: seq<string>, encode: string -> string, n: nat): (r: seq<string>)
    requires n <= |files|
    ensures |r| == n
    ensures forall i :: 0 <= i < n ==> r[i] == encode(files[i])
  {
    if n == 0 then [] else EncodedNames(files, encode, n - 1) + [encode(files[n - 1])]
  }

  /** Each of the first `n` files gets exactly one upload, under its encoded name, in file order. */
  lemma {:induction false} UploadsInOrder(files: seq<string>, encode: string -> string, uploadOk: nat -> bool, n: nat)
    requires n <= |files|
    ensures UploadKeys(BatchLog(files, encode, uploadOk, n)) == EncodedNames(files, encode, n)
  {
    if n > 0 {
      UploadsInOrder(files, encode, uploadOk, n - 1);
      BatchLogUploadStep(files, encode, uploadOk, n);
    }
  }

  /** Processing one more file adds its name to the inserted names exactly when its upload succeeded. */
  lemma BatchLogInsertStep(files: seq<string>, encode: string -> string, uploadOk: nat -> bool, n: nat)
    requires 0 < n <= |files|
    ensures InsertedNames(BatchLog(files, encode, uploadOk, n)) ==
              InsertedNames(BatchLog(files, encode, uploadOk, n - 1)) + (if uploadOk(n - 1) then [files[n - 1]] else [])
  {
    InsertedNamesAppend(BatchLog(files, encode, uploadOk, n - 1), FileOps(files[n - 1], encode, uploadOk(n - 1)));
    FileOpsProjections(files[n - 1], encode, uploadOk(n - 1));
  }

  /** Rows are inserted for exactly the files whose upload succeeded, in file order. */
  lemma {:induction false} InsertsOnlyAfterUpload(files: seq<string>, encode: string -> string, uploadOk: nat -> bool, n: nat)
    requires n <= |files|
    ensures InsertedNames(BatchLog(files, encode, uploadOk, n)) == Uploaded(files, uploadOk, n)
  {
    if n > 0 {
      InsertsOnlyAfterUpload(files, encode, uploadOk, n - 1);
      BatchLogInsertStep(files, encode, uploadOk, n);
    }
  }

  /** Every file is either uploaded or reported as a failed upload: N - M inserts for M failures out of N. */
  lemma {:induction false} SuccessesAndFailures(files: seq<string>, uploadOk: nat -> bool, n: nat)
    requires n <= |files|
    ensures |Uploaded(files, uploadOk, n)| + |UploadFailures(files, uploadOk, n)| == n
  {
    if n > 0 {
      SuccessesAndFailures(files, uploadOk, n - 1);
    }
  }

  /** The shape every request of the script has: uploads as "application/pdf" with overwrite on, and each insert right after its upload. */
  ghost predicate WellFormedAt(log: seq<Op>, encode: string -> string, k: nat)
    requires k < |log|
  {
    (log[k].UploadObject? ==> log[k] == UploadObject(Bucket, log[k].key, ContentType, true)) &&
    (log[k].InsertRow? ==>
       k > 0 && log[k].table == Table && log[k].storageKey == encode(log[k].originalName) &&
       log[k - 1] == UploadObject(Bucket, log[k].storageKey, ContentType, true))
  }

  /**
   * Every insert in the log comes right after the upload of the same file,
   * under the same storage key; every upload asks for "application/pdf"
   * with overwrite on.
   */
  lemma {:induction false} InsertFollowsItsUpload(files: seq<string>, encode: string -> string, uploadOk: nat -> bool, n: nat)
    requires n <= |files|
    ensures forall k: nat :: k < |BatchLog(files, encode, uploadOk, n)| ==>
              WellFormedAt(BatchLog(files, encode, uploadOk, n), encode, k)
  {
    if n > 0 {
      InsertFollowsItsUpload(files, encode, uploadOk, n - 1);
      var prev := BatchLog(files, encode, uploadOk, n - 1);
      var ops := FileOps(files[n - 1], encode, uploadOk(n - 1));
      var log := prev + ops;
      forall k: nat | k < |log|
        ensures WellFormedAt(log, encode, k)
      {
        if k < |prev| {
          assert WellFormedAt(prev, encode, k);
        } else {
          assert log[k] == ops[k - |prev|];
          assert k > |prev| ==> log[k - 1] == ops[0];
        }
      }
    }
  }

  /** A file is uploaded exactly when it is in the batch and its upload attempt succeeded. */
  lemma {:induction false} UploadedIff(files: seq<string>, uploadOk: nat -> bool, n: nat, f: string)
    requires n <= |files|
    ensures f in Uploaded(files, uploadOk, n) <==> exists i :: 0 <= i < n && files[i] == f && uploadOk(i)
  {
    if n > 0 {
      UploadedIff(files, uploadOk, n - 1, f);
    }
  }

  /** A name is reported as a failed upload exactly when some processed position holds it and that upload failed. */
  lemma {:induction false} UploadFailuresIff(files: seq<string>, uploadOk: nat -> bool, n: nat, f: string)
    requires n <= |files|
    ensures f in UploadFailures(files, uploadOk, n) <==> exists i :: 0 <= i < n && files[i] == f && !uploadOk(i)
  {
    if n > 0 {
      UploadFailuresIff(files, uploadOk, n - 1, f);
    }
  }

  /** A name is reported as a failed insert exactly when its upload succeeded and its insert failed. */
  lemma {:induction false} InsertFailuresIff(files: seq<string>, uploadOk: nat -> bool, insertOk: nat -> bool, n: nat, f: string)
    requires n <= |files|
    ensures f in InsertFailures(files, uploadOk, insertOk, n) <==>
              exists i :: 0 <= i < n && files[i] == f && uploadOk(i) && !insertOk(i)
  {
    if n > 0 {
      InsertFailuresIff(files, uploadOk, insertOk, n - 1, f);
    }
  }

  /** The filter keeps directory order: filtering a concatenation concatenates the filtered parts. */
  lemma {:induction false} PdfFilesAppend(a: seq<string>, b: seq<string>)
    ensures PdfFiles(a + b) == PdfFiles(a) + PdfFiles(b)
  {
    if a != [] {
      assert (a + b)[1..] == a[1..] + b;
      PdfFilesAppend(a[1..], b);
    } else {
      assert a + b == b;
    }
  }
}
