/**
 * Cached covers (server/cover-cache.ts): a table of rows and a directory of files, which only single steps
 * of the file system and of the database change. A refresh, a read and a removal are several such steps,
 * and the process may stop between any two of them.
 */
module CoverCache {
  import opened Wrappers

  type Sub = nat

  /** Bytes, by an identity and their length. */
  datatype Content = Content(id: nat, length: nat)

  /** The names of `cacheFileName`, whose two hashes are taken to be injective, and of its temporary files. */
  datatype FileName =
    | Cover(sub: Sub, content: Content)
    | Temporary(sub: Sub, content: Content, nonce: nat)
    | Stray(id: nat)

  datatype Row = Row(source: nat, contentType: nat, fileName: FileName, byteLength: nat, cachedAt: nat)

  datatype Store = Store(files: map<FileName, Content>, rows: map<Sub, Row>)

  datatype CachedCover = CachedCover(content: Content, contentType: nat, source: nat, cachedAt: nat)

  datatype Asset = Asset(source: nat, contentType: nat, content: Content, cachedAt: nat, nonce: nat)

  function RowFor(sub: Sub, a: Asset): Row {
    Row(a.source, a.contentType, Cover(sub, a.content), a.content.length, a.cachedAt)
  }

  function CoverOf(a: Asset): CachedCover {
    CachedCover(a.content, a.contentType, a.source, a.cachedAt)
  }

  // ----- Single steps on the store

  function WithFile(s: Store, name: FileName, content: Content): Store {
    s.(files := s.files[name := content])
  }

  function WithoutFile(s: Store, name: FileName): Store {
    s.(files := s.files - {name})
  }

  function Renamed(s: Store, from: FileName, to: FileName): Store
    requires from in s.files
  {
    s.(files := (s.files - {from})[to := s.files[from]])
  }

  function WithRow(s: Store, sub: Sub, row: Row): Store {
    s.(rows := s.rows[sub := row])
  }

  function WithoutRow(s: Store, sub: Sub): Store {
    s.(rows := s.rows - {sub})
  }

  function Referenced(rows: map<Sub, Row>): set<FileName> {
    set sub | sub in rows :: rows[sub].fileName
  }

  /** `pruneOrphans`, where the files in `stuck` cannot be deleted. */
  function Pruned(s: Store, stuck: set<FileName>): Store {
    s.(files := map n | n in s.files && (n in Referenced(s.rows) || n in stuck) :: s.files[n])
  }

  /** What reading the cover returns. */
  function Shown(s: Store, sub: Sub): Option<CachedCover> {
    if sub in s.rows && s.rows[sub].fileName in s.files && s.files[s.rows[sub].fileName].length == s.rows[sub].byteLength
    then
      var row := s.rows[sub];
      Some(CachedCover(s.files[row.fileName], row.contentType, row.source, row.cachedAt))
    else None
  }

  /** A file with a cover's name holds that cover, and a row names a cover of its subscription and its length. */
  ghost predicate Sane(s: Store) {
    && (forall n: FileName | n in s.files && n.Cover? :: s.files[n] == n.content)
    && (forall sub: Sub | sub in s.rows ::
          s.rows[sub].fileName.Cover? && s.rows[sub].fileName.sub == sub && s.rows[sub].byteLength == s.rows[sub].fileName.content.length)
  }

  // ----- The cache

  /** Where a refresh that got its picture fails; a failed write may leave part of the temporary file behind. */
  datatype Fault = NoFault | WriteFault(left: Option<Content>) | RenameFault | RowFault | CleanupFault

  function Placed(s: Store, sub: Sub, a: Asset): Store {
    Renamed(WithFile(s, Temporary(sub, a.content, a.nonce), a.content), Temporary(sub, a.content, a.nonce), Cover(sub, a.content))
  }

  function WithoutPrevious(s: Store, previous: Option<Row>, name: FileName, unlinked: bool): Store {
    if previous.Some? && previous.value.fileName != name && unlinked then WithoutFile(s, previous.value.fileName) else s
  }

  function Refreshed(s: Store, sub: Sub, a: Asset, fault: Fault, unlinked: bool): Store {
    var name, temporary := Cover(sub, a.content), Temporary(sub, a.content, a.nonce);
    var previous := if sub in s.rows then Some(s.rows[sub]) else None;
    match fault
    case WriteFault(left) => if left.Some? then WithFile(s, temporary, left.value) else WithoutFile(s, temporary)
    case RenameFault => WithoutFile(WithFile(s, temporary, a.content), temporary)
    case RowFault => Placed(s, sub, a)
    case CleanupFault => WithRow(Placed(s, sub, a), sub, RowFor(sub, a))
    case NoFault =>
      WithoutPrevious(WithoutFile(WithRow(Placed(s, sub, a), sub, RowFor(sub, a)), temporary), previous, name, unlinked)
  }

  lemma PlacedFiles(s: Store, sub: Sub, a: Asset)
    requires Sane(s)
    ensures Sane(Placed(s, sub, a)) && Placed(s, sub, a).rows == s.rows
    ensures forall n: FileName | n.Cover? ::
              n in Placed(s, sub, a).files <==> n in s.files || n == Cover(sub, a.content)
  {
  }

  /** A temporary file is nobody's cover. */
  lemma TemporaryIsNotShown(s: Store, sub: Sub, a: Asset, content: Content, other: Sub)
    requires Sane(s)
    ensures var written := WithFile(s, Temporary(sub, a.content, a.nonce), content);
            Sane(written) && Shown(written, other) == Shown(s, other)
    ensures var removed := WithoutFile(s, Temporary(sub, a.content, a.nonce));
            Sane(removed) && Shown(removed, other) == Shown(s, other)
  {
  }

  lemma PlacedShows(s: Store, sub: Sub, a: Asset, other: Sub)
    requires Sane(s)
    ensures Sane(Placed(s, sub, a))
    ensures Shown(Placed(s, sub, a), other) ==
            if other in s.rows && s.rows[other].fileName == Cover(sub, a.content)
            then Some(CachedCover(a.content, s.rows[other].contentType, s.rows[other].source, s.rows[other].cachedAt))
            else Shown(s, other)
  {
    PlacedFiles(s, sub, a);
  }

  /** Storing the row of a picture in place, and then unlinking the file of the row before it. */
  lemma StoredShows(s: Store, sub: Sub, a: Asset, other: Sub)
    requires Sane(s) && Cover(sub, a.content) in s.files
    ensures var stored := WithRow(s, sub, RowFor(sub, a));
            Sane(stored) && Shown(stored, other) == if other == sub then Some(CoverOf(a)) else Shown(s, other)
  {
  }

  lemma UnlinkingShows(s: Store, sub: Sub, a: Asset, previous: Option<Row>, unlinked: bool, other: Sub)
    requires Sane(s) && sub in s.rows && s.rows[sub] == RowFor(sub, a)
    requires previous.Some? ==> previous.value.fileName.Cover? && previous.value.fileName.sub == sub
    ensures var gone := WithoutPrevious(s, previous, Cover(sub, a.content), unlinked);
            Sane(gone) && Shown(gone, other) == Shown(s, other)
  {
  }

  /**
   * With no fault the new cover is shown. With any other the cover shown before still is, unless only the
   * clean-up behind the stored row failed. Other subscriptions see no difference.
   */
  lemma RefreshedShows(s: Store, sub: Sub, a: Asset, fault: Fault, unlinked: bool, other: Sub)
    requires Sane(s)
    ensures Sane(Refreshed(s, sub, a, fault, unlinked))
    ensures Shown(Refreshed(s, sub, a, fault, unlinked), other) ==
            if other != sub then Shown(s, other)
            else if fault.NoFault? || fault.CleanupFault? then Some(CoverOf(a))
            else if fault.RowFault? && sub in s.rows && s.rows[sub].fileName == Cover(sub, a.content)
            then Some(CachedCover(a.content, s.rows[sub].contentType, s.rows[sub].source, s.rows[sub].cachedAt))
            else Shown(s, sub)
  {
    var temporary := Temporary(sub, a.content, a.nonce);
    match fault
    case WriteFault(left) => TemporaryIsNotShown(s, sub, a, if left.Some? then left.value else a.content, other);
    case RenameFault =>
      TemporaryIsNotShown(s, sub, a, a.content, other);
      TemporaryIsNotShown(WithFile(s, temporary, a.content), sub, a, a.content, other);
    case RowFault => PlacedShows(s, sub, a, other);
    case CleanupFault =>
      PlacedShows(s, sub, a, other);
      StoredShows(Placed(s, sub, a), sub, a, other);
    case NoFault =>
      PlacedShows(s, sub, a, other);
      StoredShows(Placed(s, sub, a), sub, a, other);
      var stored := WithRow(Placed(s, sub, a), sub, RowFor(sub, a));
      TemporaryIsNotShown(stored, sub, a, a.content, other);
      UnlinkingShows(WithoutFile(stored, temporary), sub, a, if sub in s.rows then Some(s.rows[sub]) else None, unlinked, other);
  }

  /** A refresh without a fault puts one file in the place of another: no third one is left or lost. */
  lemma RefreshedReplacesTheFile(s: Store, sub: Sub, a: Asset)
    requires Sane(s)
    ensures var previous := if sub in s.rows then {s.rows[sub].fileName} else {};
            Refreshed(s, sub, a, NoFault, true).files.Keys ==
            s.files.Keys - {Temporary(sub, a.content, a.nonce)} - previous + {Cover(sub, a.content)}
  {
  }

  class Cache {
    var files: map<FileName, Content>
    var rows: map<Sub, Row>

    ghost function Now(): Store
      reads this
    {
      Store(files, rows)
    }

    /** A new process on an existing directory and database. */
    constructor (files: map<FileName, Content>, rows: map<Sub, Row>, stuck: set<FileName>)
      ensures Now() == Pruned(Store(files, rows), stuck)
    {
      this.files, this.rows := files, rows;
      new;
      PruneOrphans(stuck);
    }

    /** Afterwards only referenced files are left, and files that could not be deleted. */
    method PruneOrphans(stuck: set<FileName>)
      modifies this`files
      ensures Now() == Pruned(old(Now()), stuck)
    {
      var referenced := Referenced(rows);
      var names := files.Keys;
      while names != {}
        invariant names <= files.Keys
        invariant forall n :: n in files <==>
                    n in old(files) && (n in names || n in referenced || n in stuck)
        invariant forall n | n in files :: files[n] == old(files)[n]
      {
        var name :| name in names;
        names := names - {name};
        if name !in referenced && name !in stuck {
          files := files - {name};
        }
      }
    }

    method Has(sub: Sub) returns (has: bool)
      ensures has <==> Shown(Now(), sub).Some?
    {
      has := sub in rows && rows[sub].fileName in files && files[rows[sub].fileName].length == rows[sub].byteLength;
    }

    /** A row whose file is gone or has another length goes, and so does such a file. */
    method Read(sub: Sub) returns (cover: Option<CachedCover>)
      modifies this
      ensures cover == Shown(old(Now()), sub)
      ensures cover.Some? ==> Now() == old(Now())
      ensures cover == None && sub in old(rows) ==>
                Now() == WithoutFile(WithoutRow(old(Now()), sub), old(rows)[sub].fileName)
      ensures sub !in old(rows) ==> Now() == old(Now())
    {
      if sub !in rows {
        return None;
      }
      var row := rows[sub];
      if row.fileName !in files {
        rows := rows - {sub};
        return None;
      }
      if files[row.fileName].length != row.byteLength {
        Remove(sub, true);
        return None;
      }
      return Some(CachedCover(files[row.fileName], row.contentType, row.source, row.cachedAt));
    }

    /** The cover is no longer shown, and its file is gone unless unlinking it failed; other covers are shown as before. */
    method Remove(sub: Sub, unlinked: bool)
      modifies this
      ensures Shown(Now(), sub) == None && sub !in rows
      ensures Sane(old(Now())) ==> Sane(Now()) && forall other: Sub | other != sub :: Shown(Now(), other) == Shown(old(Now()), other)
      ensures forall name :: name in files <==>
                name in old(files) && !(unlinked && sub in old(rows) && old(rows)[sub].fileName == name)
      ensures rows == old(rows) - {sub}
      ensures files == if sub in old(rows) && unlinked then old(files) - {old(rows)[sub].fileName} else old(files)
    {
      if sub in rows && unlinked {
        files := files - {rows[sub].fileName};
      }
      rows := rows - {sub};
    }

    method Refresh(sub: Sub, a: Asset, fault: Fault, unlinked: bool) returns (ok: bool)
      modifies this
      ensures ok <==> fault.NoFault?
      ensures Now() == Refreshed(old(Now()), sub, a, fault, unlinked)
    {
      var name, temporary := Cover(sub, a.content), Temporary(sub, a.content, a.nonce);
      var previous := if sub in rows then Some(rows[sub]) else None;
      ok := false;
      if fault.WriteFault? {
        files := if fault.left.Some? then files[temporary := fault.left.value] else files - {temporary};
        return;
      }
      files := files[temporary := a.content];
      if fault.RenameFault? {
        files := files - {temporary};
        return;
      }
      files := (files - {temporary})[name := files[temporary]];
      if !fault.RowFault? {
        rows := rows[sub := RowFor(sub, a)];
      }
      if fault.RowFault? || fault.CleanupFault? {
        return;
      }
      files := files - {temporary};
      if previous.Some? && previous.value.fileName != name && unlinked {
        files := files - {previous.value.fileName};
      }
      ok := true;
    }
  }
}
