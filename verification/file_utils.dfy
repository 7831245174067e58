/** Attachment handling on the client: a 2 MiB limit per file (large images
    are first recompressed), an 8 MiB running budget over a batch, and the
    conversion of stored attachments back into files. */
module FileUtils {
  import opened Wrappers
  import opened Strings
  import opened Seqs
  import opened Fleet

  /** A browser `File`: only what the conversion looks at. */
  datatype File = File(name: string, size: nat, mimeType: string)

  const MaxFileSize: nat := 2 * 1024 * 1024
  const MaxTotalSize: nat := 8 * 1024 * 1024

  /** What the browser computes: the size of a recompressed image (`None`
      when the canvas yields no blob or the image fails to load, and the
      original is kept), the data URL a file reads as, and the byte size a
      stored attachment decodes to (0 for the placeholder made on failure). */
  datatype FileEnv = FileEnv(
    compressedSize: File -> Option<nat>,
    dataUrl: File -> string,
    decodedSize: SerializedFile -> nat)

  predicate IsFileTooLarge(f: File) {
    f.size > MaxFileSize
  }

  predicate IsImage(f: File) {
    StartsWith(f.mimeType, "image/")
  }

  /** `compressImage`: a JPEG with the same name, or the original file. */
  function Compress(f: File, env: FileEnv): (r: File)
    ensures r.name == f.name
    ensures env.compressedSize(f).None? ==> r == f
    ensures env.compressedSize(f).Some? ==> r.mimeType == "image/jpeg" && r.size == env.compressedSize(f).value
  {
    match env.compressedSize(f)
    case None => f
    case Some(size) => File(f.name, size, "image/jpeg")
  }

  /** The file that is serialised: large images are recompressed first. */
  function Processed(f: File, env: FileEnv): (r: File)
    ensures !(IsImage(f) && IsFileTooLarge(f)) ==> r == f
    ensures IsImage(f) && IsFileTooLarge(f) ==> r == Compress(f, env)
    ensures r.name == f.name
  {
    if IsImage(f) && IsFileTooLarge(f) then Compress(f, env) else f
  }

  /** `fileToSerializedFile`: the processed file with its data URL, or
      nothing when it is still over the per-file limit. */
  function FileToSerializedFile(f: File, env: FileEnv): (r: Option<SerializedFile>)
    ensures r.Some? ==> r.value.size <= MaxFileSize
    ensures r.Some? <==> !IsFileTooLarge(Processed(f, env))
    ensures r.Some? ==> r.value.name == f.name
    ensures !IsImage(f) ==> (r.Some? <==> !IsFileTooLarge(f))
    ensures !IsImage(f) && r.Some? ==> r.value.size == f.size && r.value.mimeType == f.mimeType
  {
    var p := Processed(f, env);
    if IsFileTooLarge(p) then None
    else Some(SerializedFile(p.name, p.size, p.mimeType, env.dataUrl(p)))
  }

  /** Every file that serialises, in order, with no budget. */
  function Serialized(files: seq<File>, env: FileEnv): (r: seq<SerializedFile>)
    ensures |r| <= |files|
    decreases |files|
  {
    if |files| == 0 then []
    else match FileToSerializedFile(files[0], env)
      case None => Serialized(files[1..], env)
      case Some(sf) => [sf] + Serialized(files[1..], env)
  }

  /** Total data URL length of a list of attachments. */
  function TotalSize(sfs: seq<SerializedFile>): nat
    decreases |sfs|
  {
    if |sfs| == 0 then 0 else |sfs[0].dataUrl| + TotalSize(sfs[1..])
  }

  lemma {:induction false} TotalSizeAppend(a: seq<SerializedFile>, b: seq<SerializedFile>)
    ensures TotalSize(a + b) == TotalSize(a) + TotalSize(b)
    decreases |a|
  {
    if |a| == 0 {
      assert a + b == b;
    } else {
      assert (a + b)[1..] == a[1..] + b;
      TotalSizeAppend(a[1..], b);
    }
  }

  /** The batch conversion as a recursive definition: before each file, stop
      if the running total already exceeds the budget. */
  function Budgeted(files: seq<File>, env: FileEnv, total: nat): seq<SerializedFile>
    decreases |files|
  {
    if |files| == 0 || total > MaxTotalSize then []
    else match FileToSerializedFile(files[0], env)
      case None => Budgeted(files[1..], env, total)
      case Some(sf) => [sf] + Budgeted(files[1..], env, total + |sf.dataUrl|)
  }

  /** `filesToSerializedFiles`: converts files in order under the 8 MiB
      budget; `warning` is the skipped-files notice. */
  method FilesToSerializedFiles(files: seq<File>, env: FileEnv) returns (results: seq<SerializedFile>, warning: bool)
    ensures results == Budgeted(files, env, 0)
    ensures warning <==> |results| < |files|
  {
    results := [];
    var total: nat := 0;
    var i := 0;
    while i < |files|
      invariant 0 <= i <= |files|
      invariant total == TotalSize(results)
      invariant results + Budgeted(files[i..], env, total) == Budgeted(files, env, 0)
    {
      if total > MaxTotalSize {
        break;
      }
      assert files[i..][1..] == files[i + 1..];
      var sf := FileToSerializedFile(files[i], env);
      assert Budgeted(files[i..], env, total) == if sf.Some?
        then [sf.value] + Budgeted(files[i + 1..], env, total + |sf.value.dataUrl|)
        else Budgeted(files[i + 1..], env, total);
      if sf.Some? {
        assert results + [sf.value] + Budgeted(files[i + 1..], env, total + |sf.value.dataUrl|)
          == results + ([sf.value] + Budgeted(files[i + 1..], env, total + |sf.value.dataUrl|));
        TotalSizeAppend(results, [sf.value]);
        assert TotalSize([sf.value]) == |sf.value.dataUrl|;
        results := results + [sf.value];
        total := total + |sf.value.dataUrl|;
      }
      i := i + 1;
    }
    BudgetedShorter(files, env, 0);
    warning := |results| < |files|;
  }

  lemma {:induction false} BudgetedShorter(files: seq<File>, env: FileEnv, total: nat)
    ensures |Budgeted(files, env, total)| <= |files|
    decreases |files|
  {
    if |files| > 0 && total <= MaxTotalSize {
      BudgetedShorter(files[1..], env, if FileToSerializedFile(files[0], env).Some? then total + |FileToSerializedFile(files[0], env).value.dataUrl| else total);
    }
  }

  /** The budget only cuts the list short: the result is a prefix of all
      the files that serialise, so it keeps their order and skips none before
      the cut. */
  lemma {:induction false} BudgetedIsPrefix(files: seq<File>, env: FileEnv, total: nat)
    ensures |Budgeted(files, env, total)| <= |Serialized(files, env)|
    ensures Budgeted(files, env, total) == Serialized(files, env)[..|Budgeted(files, env, total)|]
    decreases |files|
  {
    if |files| > 0 && total <= MaxTotalSize {
      match FileToSerializedFile(files[0], env)
      case None =>
        BudgetedIsPrefix(files[1..], env, total);
      case Some(sf) =>
        BudgetedIsPrefix(files[1..], env, total + |sf.dataUrl|);
    }
  }

  /** The overshoot bound: before the last accepted file was added, the
      running total was within budget. */
  lemma {:induction false} BudgetedOvershoot(files: seq<File>, env: FileEnv, total: nat)
    ensures var b := Budgeted(files, env, total);
      |b| > 0 ==> total + TotalSize(b[..|b| - 1]) <= MaxTotalSize
    decreases |files|
  {
    var b := Budgeted(files, env, total);
    if |files| > 0 && total <= MaxTotalSize {
      match FileToSerializedFile(files[0], env)
      case None =>
        BudgetedOvershoot(files[1..], env, total);
      case Some(sf) =>
        var rest := Budgeted(files[1..], env, total + |sf.dataUrl|);
        BudgetedOvershoot(files[1..], env, total + |sf.dataUrl|);
        assert b == [sf] + rest;
        if |rest| > 0 {
          assert b[..|b| - 1] == [sf] + rest[..|rest| - 1];
          TotalSizeAppend([sf], rest[..|rest| - 1]);
        } else {
          assert b[..|b| - 1] == [];
        }
    }
  }

  /** The cut happens only for the budget: when some serialisable file is
      left out, the running total has passed 8 MiB. */
  lemma {:induction false} BudgetedStopsOnlyOverBudget(files: seq<File>, env: FileEnv, total: nat)
    ensures |Budgeted(files, env, total)| < |Serialized(files, env)| ==>
      total + TotalSize(Budgeted(files, env, total)) > MaxTotalSize
    decreases |files|
  {
    if |files| > 0 && total <= MaxTotalSize {
      match FileToSerializedFile(files[0], env)
      case None =>
        BudgetedStopsOnlyOverBudget(files[1..], env, total);
      case Some(sf) =>
        var rest := Budgeted(files[1..], env, total + |sf.dataUrl|);
        BudgetedStopsOnlyOverBudget(files[1..], env, total + |sf.dataUrl|);
        assert ([sf] + rest)[1..] == rest;
    }
  }

  /** With a batch under the budget, nothing but oversized files is lost. */
  lemma SmallBatchKeepsEverySerialisable(files: seq<File>, env: FileEnv)
    requires TotalSize(Serialized(files, env)) <= MaxTotalSize
    ensures Budgeted(files, env, 0) == Serialized(files, env)
  {
    BudgetedIsPrefix(files, env, 0);
    BudgetedStopsOnlyOverBudget(files, env, 0);
    var b := Budgeted(files, env, 0);
    var s := Serialized(files, env);
    if |b| < |s| {
      assert s == b + s[|b|..];
      TotalSizeAppend(b, s[|b|..]);
      assert false;
    }
  }

  /** `serializedFileToFile`: the decoded bytes as a file of the stored name
      and type. */
  function ToFile(sf: SerializedFile, env: FileEnv): (r: File)
    ensures r.name == sf.name && r.mimeType == sf.mimeType && r.size == env.decodedSize(sf)
  {
    File(sf.name, env.decodedSize(sf), sf.mimeType)
  }

  predicate NonEmptyFile(f: File) {
    f.size > 0
  }

  /** Every attachment decoded, in order. */
  function Decoded(sfs: seq<SerializedFile>, env: FileEnv): (r: seq<File>)
    ensures |r| == |sfs| && forall i :: 0 <= i < |sfs| ==> r[i] == ToFile(sfs[i], env)
  {
    seq(|sfs|, i requires 0 <= i < |sfs| => ToFile(sfs[i], env))
  }

  /** `serializedFilesToFiles`: decodes every attachment and drops the empty
      results, keeping order. */
  function SerializedFilesToFiles(sfs: seq<SerializedFile>, env: FileEnv): (r: seq<File>)
    ensures IsSubsequence(r, Decoded(sfs, env))
    ensures forall i :: 0 <= i < |r| ==> r[i].size > 0
    ensures forall i :: 0 <= i < |sfs| && env.decodedSize(sfs[i]) > 0 ==> ToFile(sfs[i], env) in r
    ensures |r| == |sfs| <==> forall i :: 0 <= i < |sfs| ==> env.decodedSize(sfs[i]) > 0
    ensures forall f :: multiset(r)[f] == if NonEmptyFile(f) then multiset(Decoded(sfs, env))[f] else 0
  {
    var decoded := Decoded(sfs, env);
    assert forall i :: 0 <= i < |sfs| ==> NonEmptyFile(decoded[i]) == (env.decodedSize(sfs[i]) > 0);
    FilterKeepsAllIff(decoded, NonEmptyFile);
    FilterMultiplicity(decoded, NonEmptyFile);
    Filter(decoded, NonEmptyFile)
  }
}
