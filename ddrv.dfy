/**
 * The Ddrv adapter (src/lib/datasources/Ddrv.ts): a datasource backed by a
 * remote HTTP file service that addresses files by opaque id inside a
 * directory. Every remote reply is taken here as an abstract value; the
 * functions below interpret those replies as the adapter's callbacks do for
 * the reply shapes modelled, with the first `res(...)` of each callback
 * modelled as an early return.
 */
module DdrvAdapter {
  import opened Wrappers

  /** The adapter's settings, fixed at construction. */
  datatype Config = Config(url: string, key: string, bucket: string, parentBucket: string)

  /** One record of a directory listing. */
  datatype Entry = Entry(id: string, name: string, size: nat, dir: bool)

  /** The JSON envelope of a directory listing: its `error` field and `data.files`. */
  datatype Listing = Listing(error: Option<string>, files: seq<Entry>)

  /**
   * The JSON reply to a file-metadata request: either an object envelope
   * (its `error` field and `data.size`) or an array, which has a `length`
   * but neither `error` nor `data`.
   */
  datatype FileReply =
    | Envelope(error: Option<string>, size: nat)
    | Array(length: nat)

  /** `if (j.error)`: an absent error and an empty error string are both falsy. */
  predicate Failed(error: Option<string>)
  {
    error.Some? && error.value != ""
  }

  /** The predicate handed to `files.find`: directories are skipped, names compared exactly. */
  predicate Matches(e: Entry, name: string)
  {
    !e.dir && e.name == name
  }

  // ---------------------------------------------------------------------
  // Name -> id resolution (getIdFromName)
  // ---------------------------------------------------------------------

  /** The position `files.find` stops at: the first matching entry, if any. */
  function FindIndex(files: seq<Entry>, name: string): (k: Option<nat>)
    ensures k.Some? ==> k.value < |files| && Matches(files[k.value], name)
    ensures k.Some? ==> forall j :: 0 <= j < k.value ==> !Matches(files[j], name)
    ensures k.None? ==> forall j :: 0 <= j < |files| ==> !Matches(files[j], name)
  {
    if files == [] then None
    else if Matches(files[0], name) then Some(0)
    else match FindIndex(files[1..], name)
      case None => None
      case Some(k) => Some(k + 1)
  }

  /** `files.find(...)`: the first matching entry itself. */
  function Find(files: seq<Entry>, name: string): (r: Option<Entry>)
    ensures r.Some? ==> Matches(r.value, name)
    ensures r.Some? ==> exists k :: 0 <= k < |files| && files[k] == r.value &&
                          forall j :: 0 <= j < k ==> !Matches(files[j], name)
    ensures r.None? <==> forall e :: e in files ==> !Matches(e, name)
  {
    match FindIndex(files, name)
    case None => None
    case Some(k) => Some(files[k])
  }

  /**
   * getIdFromName, given the listing of the configured directory: the error
   * envelope resolves first to the empty sentinel, then the empty listing,
   * then the id of the entry `find` returns, or the sentinel.
   */
  function ResolveId(listing: Listing, name: string): (id: string)
    ensures Failed(listing.error) ==> id == ""
    ensures (forall e :: e in listing.files ==> !Matches(e, name)) ==> id == ""
    ensures id != "" ==> exists e :: e in listing.files && Matches(e, name) && e.id == id
  {
    if Failed(listing.error) then ""
    else if |listing.files| == 0 then ""
    else match Find(listing.files, name)
      case Some(e) => e.id
      case None => ""
  }

  /** Resolution picks the first matching entry in listing order. */
  lemma ResolveFirstMatch(listing: Listing, name: string, k: nat)
    requires !Failed(listing.error)
    requires k < |listing.files| && Matches(listing.files[k], name)
    requires forall j :: 0 <= j < k ==> !Matches(listing.files[j], name)
    ensures ResolveId(listing, name) == listing.files[k].id
  {
    var i := FindIndex(listing.files, name);
    assert i.Some?;
    assert i.value == k;
  }

  /**
   * Once a listing holds a match, entries appended after it never change the
   * result: a later duplicate is never chosen.
   */
  lemma ResolveIgnoresLaterEntries(error: Option<string>, files: seq<Entry>, later: seq<Entry>, name: string)
    requires exists e :: e in files && Matches(e, name)
    ensures ResolveId(Listing(error, files + later), name) == ResolveId(Listing(error, files), name)
  {
    var i := FindIndex(files, name);
    assert i.Some?;
    var k := i.value;
    forall j | 0 <= j < k
      ensures !Matches((files + later)[j], name)
    {
      assert (files + later)[j] == files[j];
    }
    assert (files + later)[k] == files[k];
    if !Failed(error) {
      ResolveFirstMatch(Listing(error, files + later), name, k);
      ResolveFirstMatch(Listing(error, files), name, k);
    }
  }

  /** The entries of a listing that are not directories, in listing order. */
  function NonDirs(files: seq<Entry>): (r: seq<Entry>)
    ensures forall e :: e in r <==> e in files && !e.dir
    ensures |r| <= |files|
  {
    if files == [] then []
    else (if files[0].dir then [] else [files[0]]) + NonDirs(files[1..])
  }

  lemma {:induction false} NonDirsConcat(a: seq<Entry>, b: seq<Entry>)
    ensures NonDirs(a + b) == NonDirs(a) + NonDirs(b)
  {
    if a == [] {
      assert a + b == b;
    } else {
      assert (a + b)[0] == a[0];
      assert (a + b)[1..] == a[1..] + b;
      NonDirsConcat(a[1..], b);
    }
  }

  lemma {:induction false} NonDirsIdempotent(files: seq<Entry>)
    ensures NonDirs(NonDirs(files)) == NonDirs(files)
  {
    if files != [] {
      var head := if files[0].dir then [] else [files[0]];
      NonDirsConcat(head, NonDirs(files[1..]));
      NonDirsIdempotent(files[1..]);
      assert NonDirs(head) == head;
    }
  }

  /** An entry that does not match can be dropped from the front of the search. */
  lemma FindSkipsHead(files: seq<Entry>, name: string)
    requires files != [] && !Matches(files[0], name)
    ensures Find(files, name) == Find(files[1..], name)
  {
    match FindIndex(files[1..], name)
    case None =>
    case Some(k) => assert files[k + 1] == files[1..][k];
  }

  /** `find` sees only non-directory entries: directories could as well be absent. */
  lemma {:induction false} FindIgnoresDirectories(files: seq<Entry>, name: string)
    ensures Find(files, name) == Find(NonDirs(files), name)
  {
    if files != [] {
      var rest := NonDirs(files[1..]);
      FindIgnoresDirectories(files[1..], name);
      if files[0].dir {
        assert NonDirs(files) == rest;
        FindSkipsHead(files, name);
      } else {
        var s := [files[0]] + rest;
        assert NonDirs(files) == s;
        assert s[0] == files[0] && s[1..] == rest;
        if !Matches(files[0], name) {
          FindSkipsHead(files, name);
          FindSkipsHead(s, name);
        }
      }
    }
  }

  /** Resolution gives the same id on a listing with all its directories removed. */
  lemma ResolveIgnoresDirectories(listing: Listing, name: string)
    ensures ResolveId(listing, name) == ResolveId(Listing(listing.error, NonDirs(listing.files)), name)
  {
    FindIgnoresDirectories(listing.files, name);
  }

  /**
   * A directory never matches, even one carrying the requested name:
   * inserting it anywhere in a listing leaves the resolved id unchanged.
   */
  lemma DirectoryNeverResolves(error: Option<string>, before: seq<Entry>, d: Entry, after: seq<Entry>, name: string)
    requires d.dir
    ensures ResolveId(Listing(error, before + [d] + after), name) == ResolveId(Listing(error, before + after), name)
  {
    NonDirsConcat(before + [d], after);
    NonDirsConcat(before, [d]);
    NonDirsConcat(before, after);
    assert NonDirs([d]) == [];
    assert NonDirs(before) + [] == NonDirs(before);
    ResolveIgnoresDirectories(Listing(error, before + [d] + after), name);
    ResolveIgnoresDirectories(Listing(error, before + after), name);
  }

  // ---------------------------------------------------------------------
  // Aggregate size (fullSize)
  // ---------------------------------------------------------------------

  /** The reducer of fullSize: adds the entry's size unless it is a directory. */
  function Step(total: nat, e: Entry): nat
  {
    if !e.dir then total + e.size else total
  }

  /** `files.reduce(Step, total)`: a left fold in listing order. */
  function Reduce(files: seq<Entry>, total: nat): (r: nat)
    ensures total <= r
  {
    if files == [] then total else Reduce(files[1..], Step(total, files[0]))
  }

  /** Reference definition: the total size of every entry of a list. */
  function SizeSum(files: seq<Entry>): nat
  {
    if files == [] then 0 else files[0].size + SizeSum(files[1..])
  }

  lemma {:induction false} SizeSumConcat(a: seq<Entry>, b: seq<Entry>)
    ensures SizeSum(a + b) == SizeSum(a) + SizeSum(b)
  {
    if a == [] {
      assert a + b == b;
    } else {
      assert (a + b)[0] == a[0];
      assert (a + b)[1..] == a[1..] + b;
      SizeSumConcat(a[1..], b);
    }
  }

  /** The fold adds exactly the sizes of the non-directory entries to its start value. */
  lemma {:induction false} ReduceSumsNonDirs(files: seq<Entry>, total: nat)
    ensures Reduce(files, total) == total + SizeSum(NonDirs(files))
  {
    if files != [] {
      ReduceSumsNonDirs(files[1..], Step(total, files[0]));
      var head := if files[0].dir then [] else [files[0]];
      SizeSumConcat(head, NonDirs(files[1..]));
      assert SizeSum(head) == if files[0].dir then 0 else files[0].size by {
        if !files[0].dir { assert head[1..] == []; }
      }
    }
  }

  /**
   * fullSize, given the listing of the configured directory: 0 on an error
   * envelope (the first resolution wins), 0 on an empty listing, otherwise the fold.
   */
  function FullSize(listing: Listing): (n: nat)
    ensures Failed(listing.error) ==> n == 0
    ensures listing.files == [] ==> n == 0
    ensures !Failed(listing.error) ==> n == SizeSum(NonDirs(listing.files))
  {
    if Failed(listing.error) then 0
    else if |listing.files| == 0 then 0
    else
      ReduceSumsNonDirs(listing.files, 0);
      Reduce(listing.files, 0)
  }

  /** Appending an entry adds its size when it is a file and nothing when it is a directory. */
  lemma FullSizeAppend(error: Option<string>, files: seq<Entry>, f: Entry)
    requires !Failed(error)
    ensures FullSize(Listing(error, files + [f])) == FullSize(Listing(error, files)) + (if f.dir then 0 else f.size)
  {
    NonDirsConcat(files, [f]);
    SizeSumConcat(NonDirs(files), NonDirs([f]));
    assert NonDirs([f]) == if f.dir then [] else [f];
  }

  /** fullSize is additive over concatenated listings. */
  lemma FullSizeConcat(error: Option<string>, a: seq<Entry>, b: seq<Entry>)
    requires !Failed(error)
    ensures FullSize(Listing(error, a + b)) == FullSize(Listing(error, a)) + FullSize(Listing(error, b))
  {
    NonDirsConcat(a, b);
    SizeSumConcat(NonDirs(a), NonDirs(b));
  }

  /** Directory entries contribute nothing: removing them all leaves fullSize unchanged. */
  lemma FullSizeIgnoresDirectories(listing: Listing)
    ensures FullSize(listing) == FullSize(Listing(listing.error, NonDirs(listing.files)))
  {
    NonDirsIdempotent(listing.files);
  }

  /** Every file of a readable listing is counted in full. */
  lemma FullSizeCountsEachFile(listing: Listing, k: nat)
    requires !Failed(listing.error)
    requires k < |listing.files| && !listing.files[k].dir
    ensures listing.files[k].size <= FullSize(listing)
  {
    var files := listing.files;
    assert files == files[..k] + [files[k]] + files[k + 1..];
    FullSizeConcat(listing.error, files[..k] + [files[k]], files[k + 1..]);
    FullSizeAppend(listing.error, files[..k], files[k]);
  }

  /** A list of entries sums to zero exactly when every entry has size 0. */
  lemma {:induction false} SizeSumZero(files: seq<Entry>)
    ensures SizeSum(files) == 0 <==> forall e :: e in files ==> e.size == 0
  {
    if files != [] {
      SizeSumZero(files[1..]);
      assert forall e :: e in files <==> e == files[0] || e in files[1..];
    }
  }

  /**
   * On a readable listing, a zero total cannot tell an empty listing and a
   * listing whose files are all empty apart (an error envelope gives 0 as
   * well, by FullSize's first ensures).
   */
  lemma FullSizeZero(listing: Listing)
    requires !Failed(listing.error)
    ensures FullSize(listing) == 0 <==> forall e :: e in listing.files && !e.dir ==> e.size == 0
  {
    SizeSumZero(NonDirs(listing.files));
  }

  // ---------------------------------------------------------------------
  // Single-file size (size)
  // ---------------------------------------------------------------------

  /**
   * The callback of size, given the metadata reply; None when it never
   * settles. An error envelope resolves first to 0. An array has no `error`:
   * one of length 0 resolves to 0, and any other reaches `j.data.size` with
   * no `data`, throws before `res`, and the Promise stays pending.
   * Otherwise the result is `data.size`.
   */
  function FileSize(reply: FileReply): (n: Option<nat>)
    ensures n.None? <==> reply.Array? && reply.length != 0
    ensures n == Some(0) <==> (reply.Envelope? && (Failed(reply.error) || reply.size == 0)) || reply == Array(0)
    ensures n.Some? && n.value != 0 ==> reply.Envelope? && !Failed(reply.error) && n.value == reply.size
  {
    match reply
    case Envelope(error, size) => if Failed(error) then Some(0) else Some(size)
    case Array(length) => if length == 0 then Some(0) else None
  }

  /**
   * size(name): resolve the id from the listing, then ask for that id's
   * metadata. `metadata` stands for the remote service; the request is sent
   * even when resolution yields the empty sentinel.
   */
  function Size(listing: Listing, name: string, metadata: string -> FileReply): (n: Option<nat>)
    ensures n.Some? && n.value != 0 ==> metadata(ResolveId(listing, name)).Envelope?
    ensures n.Some? && n.value != 0 ==> !Failed(metadata(ResolveId(listing, name)).error)
    ensures n.Some? && n.value != 0 ==> n.value == metadata(ResolveId(listing, name)).size
    ensures ResolveId(listing, name) == "" ==> n == FileSize(metadata(""))
    ensures var r := metadata(ResolveId(listing, name));
      r.Envelope? && !Failed(r.error) ==> n == Some(r.size)
    ensures var r := metadata(ResolveId(listing, name));
      n.None? <==> r.Array? && r.length != 0
  {
    FileSize(metadata(ResolveId(listing, name)))
  }

  /**
   * End to end: on a readable listing whose first match is at k, size reports
   * the `data.size` of the error-free metadata envelope for that entry's id.
   */
  lemma SizeOfFirstMatch(listing: Listing, name: string, metadata: string -> FileReply, k: nat)
    requires !Failed(listing.error)
    requires k < |listing.files| && Matches(listing.files[k], name)
    requires forall j :: 0 <= j < k ==> !Matches(listing.files[j], name)
    requires metadata(listing.files[k].id).Envelope? && !Failed(metadata(listing.files[k].id).error)
    ensures Size(listing, name, metadata) == Some(metadata(listing.files[k].id).size)
  {
    ResolveFirstMatch(listing, name, k);
  }

  /** An error reply, an empty array and a genuinely empty file all report 0. */
  lemma ZeroSizeIsAmbiguous(bad: FileReply, empty: FileReply)
    requires bad.Envelope? && Failed(bad.error)
    requires empty.Envelope? && !Failed(empty.error) && empty.size == 0
    ensures FileSize(bad) == FileSize(Array(0)) == FileSize(empty) == Some(0)
  {
  }

  // ---------------------------------------------------------------------
  // clear
  // ---------------------------------------------------------------------

  /** The remote requests clear can issue. */
  datatype Request = DeleteDirectory(id: string) | CreateDirectory(name: string, parent: string)

  /** The name clear gives the directory it recreates. */
  const RecreatedName := "zipline"

  /**
   * The requests clear issues, given the error field of the delete reply:
   * an error there is thrown into the catch, so the create step is skipped.
   */
  function ClearRequests(config: Config, deleteError: Option<string>): (rs: seq<Request>)
    ensures 1 <= |rs| <= 2 && rs[0] == DeleteDirectory(config.bucket)
    ensures |rs| == 2 <==> !Failed(deleteError)
    ensures |rs| == 2 ==> rs[1] == CreateDirectory(RecreatedName, config.parentBucket)
  {
    [DeleteDirectory(config.bucket)]
      + if Failed(deleteError) then [] else [CreateDirectory(RecreatedName, config.parentBucket)]
  }
}
