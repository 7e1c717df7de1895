/**
  The tree manifest written before a backup and checked after a restore. Files are hashed only
  up to a size limit; the manifest itself is hashed, and that digest is kept in the catalog.
 */
module Manifest {
  import opened Common

  const SMALL_FILE_HASH_LIMIT := 64 * 1024 * 1024
  const MANIFEST_NAME := ".immutavault-manifest.json"

  /** Path components below the root. */
  type Path = p: seq<string> | p != [] witness ["file"]

  datatype Record = Record(path: Path, size: nat, mtime: nat, sha256: Option<string>)
  datatype Document = Document(files: seq<Record>, totalBytes: nat, fileCount: nat)

  datatype File = File(bytes: seq<bv8>, mtime: nat)

  /** The regular files below a root, the manifest included once it is written. */
  type Tree = map<Path, File>

  /** Digests of file contents and of a manifest's canonical text, and the manifest's file format. */
  datatype Format = Format(
    ofFile: seq<bv8> -> string, ofDocument: Document -> string,
    render: Document -> seq<bv8>, parse: seq<bv8> -> Option<Document>)

  /** Digests are injective and not empty; a rendered manifest parses back. */
  ghost predicate GoodFormat(h: Format) {
    && (forall d :: h.parse(h.render(d)) == Some(d))
    && (forall x, y :: h.ofFile(x) == h.ofFile(y) ==> x == y)
    && (forall x :: h.ofFile(x) != "")
    && (forall x, y :: h.ofDocument(x) == h.ofDocument(y) ==> x == y)
    && (forall x :: h.ofDocument(x) != "")
  }

  /** Files named like the manifest are never recorded, at any depth. */
  predicate Recordable(path: Path) {
    path[|path| - 1] != MANIFEST_NAME
  }

  /** A sorted listing names every recordable file once, in the order `less`. */
  ghost predicate SortedListing(less: (Path, Path) -> bool, tree: Tree, listing: seq<Path>) {
    && (forall p :: p in listing <==> p in tree && Recordable(p))
    && (forall i, j | 0 <= i < j < |listing| :: less(listing[i], listing[j]))
  }

  ghost predicate StrictOrder(less: (Path, Path) -> bool) {
    && (forall a :: !less(a, a))
    && (forall a, b, c :: less(a, b) && less(b, c) ==> less(a, c))
  }

  function RecordOf(h: Format, path: Path, file: File): Record {
    Record(path, |file.bytes|, file.mtime,
           if |file.bytes| <= SMALL_FILE_HASH_LIMIT then Some(h.ofFile(file.bytes)) else None)
  }

  function RecordsOf(h: Format, tree: Tree, listing: seq<Path>): seq<Record>
    requires forall p | p in listing :: p in tree
  {
    seq(|listing|, i requires 0 <= i < |listing| => RecordOf(h, listing[i], tree[listing[i]]))
  }

  function TotalSize(records: seq<Record>): nat {
    if records == [] then 0 else TotalSize(records[..|records| - 1]) + records[|records| - 1].size
  }

  function DocumentOf(records: seq<Record>): Document {
    Document(records, TotalSize(records), |records|)
  }

  /** The record says all there is to say of the file, with its digest up to 64 MiB. */
  ghost predicate Records(h: Format, record: Record, path: Path, file: File) {
    && record.path == path && record.size == |file.bytes| && record.mtime == file.mtime
    && record.sha256 == if |file.bytes| <= 67_108_864 then Some(h.ofFile(file.bytes)) else None
  }

  /** The total is the sum of the sizes. */
  lemma {:induction false} TotalSizeAdds(a: seq<Record>, b: seq<Record>)
    ensures TotalSize([]) == 0
    ensures forall r: Record :: TotalSize([r]) == r.size
    ensures TotalSize(a + b) == TotalSize(a) + TotalSize(b)
  {
    forall r: Record ensures TotalSize([r]) == r.size {
      assert [r][..0] == [];
    }
    if b == [] {
      assert a + b == a;
    } else {
      TotalSizeAdds(a, b[..|b| - 1]);
      assert (a + b)[..|a + b| - 1] == a + b[..|b| - 1];
    }
  }

  /** Builds the manifest of a tree and writes it into the root, at some modification time. */
  method BuildManifest(h: Format, tree: Tree, listing: seq<Path>, now: nat, ghost less: (Path, Path) -> bool)
    returns (after: Tree, document: Document, digest: string)
    requires SortedListing(less, tree, listing)
    ensures document == DocumentOf(RecordsOf(h, tree, listing))
    ensures digest == h.ofDocument(document)
    ensures after == tree[[MANIFEST_NAME] := File(h.render(document), now)]
    ensures |document.files| == document.fileCount == |listing|
    ensures forall i | 0 <= i < |listing| :: Records(h, document.files[i], listing[i], tree[listing[i]])
  {
    var records, total, i := [], 0, 0;
    while i < |listing|
      invariant i <= |listing|
      invariant records == RecordsOf(h, tree, listing[..i])
      invariant total == TotalSize(records)
    {
      var path := listing[i];
      var record := RecordOf(h, path, tree[path]);
      assert (records + [record])[..|records|] == records;
      records := records + [record];
      total := total + |tree[path].bytes|;
      i := i + 1;
    }
    assert listing[..i] == listing;
    document := Document(records, total, |records|);
    digest := h.ofDocument(document);
    after := tree[[MANIFEST_NAME] := File(h.render(document), now)];
  }

  datatype Problem =
    | ManifestMissing
    | DigestMismatch
    | FileMissing(path: Path)
    | SizeMismatch(path: Path)
    | HashMismatch(path: Path)

  /** A manifest that is not valid JSON raises instead of being reported. */
  datatype Verdict = Checked(ok: bool, problems: seq<Problem>) | Unreadable

  /** What the checker reports for one record; it stops at the first difference. */
  function RecordProblem(h: Format, tree: Tree, record: Record): seq<Problem> {
    if record.path !in tree then [FileMissing(record.path)]
    else if |tree[record.path].bytes| != record.size then [SizeMismatch(record.path)]
    else if record.sha256.Some? && record.sha256.value != ""
      && h.ofFile(tree[record.path].bytes) != record.sha256.value then
      [HashMismatch(record.path)]
    else []
  }

  function RecordProblems(h: Format, tree: Tree, records: seq<Record>): seq<Problem> {
    if records == [] then []
    else RecordProblems(h, tree, records[..|records| - 1]) + RecordProblem(h, tree, records[|records| - 1])
  }

  /** An absent or empty expected digest is not checked. */
  function DigestProblem(h: Format, document: Document, expected: Option<string>): seq<Problem> {
    if expected.Some? && expected.value != "" && h.ofDocument(document) != expected.value then [DigestMismatch] else []
  }

  ghost function Verification(h: Format, tree: Tree, expected: Option<string>): Verdict {
    if [MANIFEST_NAME] !in tree then Checked(false, [ManifestMissing])
    else
      match h.parse(tree[[MANIFEST_NAME]].bytes)
      case None => Unreadable
      case Some(document) =>
        var problems := DigestProblem(h, document, expected) + RecordProblems(h, tree, document.files);
        Checked(problems == [], problems)
  }

  /** The record makes the checker report the problem. */
  ghost predicate Finds(h: Format, tree: Tree, record: Record, problem: Problem) {
    match problem
    case FileMissing(path) => record.path == path && path !in tree
    case SizeMismatch(path) => record.path == path && path in tree && |tree[path].bytes| != record.size
    case HashMismatch(path) =>
      && record.path == path && path in tree && |tree[path].bytes| == record.size
      && record.sha256.Some? && record.sha256.value != "" && h.ofFile(tree[path].bytes) != record.sha256.value
    case _ => false
  }

  /** Exactly these problems: the digest's, if it was expected and is another, and those that some record finds. */
  ghost predicate ReportsAll(
    h: Format, tree: Tree, document: Document, expected: Option<string>, problems: seq<Problem>)
  {
    forall problem :: problem in problems <==>
      || (&& problem == DigestMismatch && expected.Some? && expected.value != ""
          && h.ofDocument(document) != expected.value)
      || exists i :: 0 <= i < |document.files| && Finds(h, tree, document.files[i], problem)
  }

  lemma {:induction false} RecordsFindProblems(h: Format, tree: Tree, records: seq<Record>, problem: Problem)
    ensures problem in RecordProblems(h, tree, records) <==>
            exists i :: 0 <= i < |records| && Finds(h, tree, records[i], problem)
  {
    if records != [] {
      var n := |records| - 1;
      RecordsFindProblems(h, tree, records[..n], problem);
      assert problem in RecordProblem(h, tree, records[n]) <==> Finds(h, tree, records[n], problem);
      assert forall i | 0 <= i < n :: records[..n][i] == records[i];
    }
  }

  lemma AllIsReported(h: Format, tree: Tree, document: Document, expected: Option<string>)
    ensures ReportsAll(h, tree, document, expected,
              DigestProblem(h, document, expected) + RecordProblems(h, tree, document.files))
  {
    forall problem
      ensures problem in RecordProblems(h, tree, document.files) <==>
              exists i :: 0 <= i < |document.files| && Finds(h, tree, document.files[i], problem)
    {
      RecordsFindProblems(h, tree, document.files, problem);
    }
  }

  method VerifyManifest(h: Format, tree: Tree, expected: Option<string>) returns (r: Verdict)
    ensures r == Verification(h, tree, expected)
    ensures r.Checked? ==> (r.ok <==> r.problems == [])
    ensures [".immutavault-manifest.json"] !in tree ==> r == Checked(false, [ManifestMissing])
    ensures [".immutavault-manifest.json"] in tree ==>
              var parsed := h.parse(tree[[".immutavault-manifest.json"]].bytes);
              && (parsed.None? <==> r == Unreadable)
              && (parsed.Some? ==> r.Checked? && ReportsAll(h, tree, parsed.value, expected, r.problems))
  {
    if [MANIFEST_NAME] !in tree {
      return Checked(false, [ManifestMissing]);
    }
    var parsed := h.parse(tree[[MANIFEST_NAME]].bytes);
    if parsed.None? {
      return Unreadable;
    }
    var document := parsed.value;
    var problems, i := DigestProblem(h, document, expected), 0;
    while i < |document.files|
      invariant i <= |document.files|
      invariant problems == DigestProblem(h, document, expected) + RecordProblems(h, tree, document.files[..i])
    {
      assert document.files[..i + 1][..i] == document.files[..i];
      problems := problems + RecordProblem(h, tree, document.files[i]);
      i := i + 1;
    }
    assert document.files[..i] == document.files;
    AllIsReported(h, tree, document, expected);
    r := Checked(problems == [], problems);
  }

  ghost predicate Accepts(h: Format, tree: Tree, expected: Option<string>) {
    var r := Verification(h, tree, expected);
    r.Checked? && r.ok
  }

  // ---------------------------------------------------------------- what acceptance means

  lemma {:induction false} NoRecordProblems(h: Format, tree: Tree, records: seq<Record>)
    ensures RecordProblems(h, tree, records) == [] <==>
            forall i | 0 <= i < |records| :: RecordProblem(h, tree, records[i]) == []
  {
    if records != [] {
      var n := |records| - 1;
      NoRecordProblems(h, tree, records[..n]);
      assert records == records[..n] + [records[n]];
    }
  }

  /** Same size, and the same content unless the original was too large to hash. */
  ghost predicate Faithful(original: File, restored: File) {
    && |restored.bytes| == |original.bytes|
    && (|original.bytes| <= SMALL_FILE_HASH_LIMIT ==> restored.bytes == original.bytes)
  }

  lemma CleanRecordIsFaithful(h: Format, path: Path, original: File, restored: Tree)
    requires GoodFormat(h)
    ensures RecordProblem(h, restored, RecordOf(h, path, original)) == [] <==>
            path in restored && Faithful(original, restored[path])
  {
  }

  lemma CleanRecordsAreFaithful(h: Format, tree: Tree, listing: seq<Path>, less: (Path, Path) -> bool, restored: Tree)
    requires GoodFormat(h) && SortedListing(less, tree, listing)
    ensures RecordProblems(h, restored, RecordsOf(h, tree, listing)) == [] <==>
            forall p | p in tree && Recordable(p) :: p in restored && Faithful(tree[p], restored[p])
  {
    var records := RecordsOf(h, tree, listing);
    NoRecordProblems(h, restored, records);
    forall i | 0 <= i < |listing|
      ensures RecordProblem(h, restored, records[i]) == [] <==>
              listing[i] in restored && Faithful(tree[listing[i]], restored[listing[i]])
    {
      CleanRecordIsFaithful(h, listing[i], tree[listing[i]], restored);
    }
  }

  /**
    Against the digest of the manifest built from the original tree, the checker accepts a
    restored tree exactly when its manifest is the original one and every recorded file is
    there, faithful to the original.
   */
  lemma AcceptsExactlyFaithfulTrees(
    h: Format, tree: Tree, listing: seq<Path>, less: (Path, Path) -> bool, restored: Tree)
    requires GoodFormat(h) && SortedListing(less, tree, listing)
    ensures var document := DocumentOf(RecordsOf(h, tree, listing));
            Accepts(h, restored, Some(h.ofDocument(document))) <==>
              && [".immutavault-manifest.json"] in restored
              && h.parse(restored[[".immutavault-manifest.json"]].bytes) == Some(document)
              && forall p: Path | p in tree && p[|p| - 1] != ".immutavault-manifest.json" ::
                   && p in restored && |restored[p].bytes| == |tree[p].bytes|
                   && (|tree[p].bytes| <= 67_108_864 ==> restored[p].bytes == tree[p].bytes)
  {
    CleanRecordsAreFaithful(h, tree, listing, less, restored);
  }

  /** A tree that is unchanged since its manifest was written always verifies. */
  lemma UnchangedTreeVerifies(h: Format, tree: Tree, listing: seq<Path>, less: (Path, Path) -> bool, now: nat)
    requires GoodFormat(h) && SortedListing(less, tree, listing)
    ensures var document := DocumentOf(RecordsOf(h, tree, listing));
            Accepts(h, tree[[MANIFEST_NAME] := File(h.render(document), now)], Some(h.ofDocument(document)))
  {
    var document := DocumentOf(RecordsOf(h, tree, listing));
    AcceptsExactlyFaithfulTrees(h, tree, listing, less, tree[[MANIFEST_NAME] := File(h.render(document), now)]);
  }

  // ---------------------------------------------------------------- rebuilding

  lemma SortedListingTail(less: (Path, Path) -> bool, a: seq<Path>, p: Path)
    requires StrictOrder(less) && a != []
    requires forall i, j | 0 <= i < j < |a| :: less(a[i], a[j])
    ensures p in a[1..] <==> p in a && p != a[0]
  {
  }

  lemma HasMember(listing: seq<Path>)
    ensures listing != [] ==> exists p :: p in listing
  {
    assert listing != [] ==> listing[0] in listing;
  }

  /** A set of files has only one sorted listing. */
  lemma {:induction false} SortedListingIsUnique(less: (Path, Path) -> bool, a: seq<Path>, b: seq<Path>)
    requires StrictOrder(less)
    requires forall p :: p in a <==> p in b
    requires forall i, j | 0 <= i < j < |a| :: less(a[i], a[j])
    requires forall i, j | 0 <= i < j < |b| :: less(b[i], b[j])
    ensures a == b
  {
    HasMember(b);
    if a != [] {
      assert a[0] in b;
      assert b[0] in b && b[0] in a;
      var i :| 0 <= i < |b| && b[i] == a[0];
      var j :| 0 <= j < |a| && a[j] == b[0];
      assert a[0] == b[0];
      forall p ensures p in a[1..] <==> p in b[1..] {
        SortedListingTail(less, a, p);
        SortedListingTail(less, b, p);
      }
      SortedListingIsUnique(less, a[1..], b[1..]);
      assert a == [a[0]] + a[1..] && b == [b[0]] + b[1..];
    }
  }

  /**
    Building again in the same root, with the earlier manifest now lying there and the
    directory enumerated in any order before sorting, gives the same document and digest.
   */
  lemma RebuildGivesSameDigest(
    h: Format, tree: Tree, first: seq<Path>, second: seq<Path>, less: (Path, Path) -> bool, now: nat)
    requires StrictOrder(less) && SortedListing(less, tree, first)
    requires SortedListing(less, tree[[MANIFEST_NAME] := File(h.render(DocumentOf(RecordsOf(h, tree, first))), now)],
             second)
    ensures var built := tree[[MANIFEST_NAME] := File(h.render(DocumentOf(RecordsOf(h, tree, first))), now)];
            DocumentOf(RecordsOf(h, built, second)) == DocumentOf(RecordsOf(h, tree, first))
  {
    SortedListingIsUnique(less, first, second);
    var built := tree[[MANIFEST_NAME] := File(h.render(DocumentOf(RecordsOf(h, tree, first))), now)];
    assert forall i | 0 <= i < |first| :: first[i] in first;
    assert RecordsOf(h, built, second) == RecordsOf(h, tree, first);
  }
}
