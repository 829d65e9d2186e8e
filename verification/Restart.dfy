/** Starting again on an existing directory: what the index database and the body files give back. */
module Restart {
  import opened Common
  import opened CacheModel
  import opened Index

  /** The record that loading builds for a key. Of a body the sizes and the checksum are measured
      on the file; of a mapping the size is computed from its text. */
  ghost function Rebuilt(key: Key, stored: DiskRecord, file: Blob, blocks: nat, pathLength: nat): Record
  {
    match stored.value
    case Body(_) =>
      Record(stored.value, stored.expiresAt, stored.lastAccess, file.size, blocks,
             BodySize(key, pathLength, blocks), file.checksum)
    case Mapping(entries) =>
      Record(stored.value, stored.expiresAt, stored.lastAccess, 0, 0, MappingSize(key, entries), "")
  }

  predicate Expired(stored: DiskRecord, now: int)
  {
    stored.expiresAt.Some? && stored.expiresAt.value <= now
  }

  /** A record is taken over unless it has expired or its file is gone. */
  predicate Loads(stored: DiskRecord, files: map<Path, Blob>, now: int)
  {
    !Expired(stored, now) && (stored.value.Body? ==> stored.value.path in files)
  }

  ghost function FileOf(stored: DiskRecord, files: map<Path, Blob>): Blob
  {
    if stored.value.Body? && stored.value.path in files then files[stored.value.path] else Blob(0, "")
  }

  function BlocksOf(stored: DiskRecord, blocks: map<Path, nat>): nat
  {
    if stored.value.Body? && stored.value.path in blocks then blocks[stored.value.path] else 0
  }

  ghost function TagsOn(disk: DiskIndex, key: Key): set<Group>
  {
    set g | g in disk.groups && key in disk.groups[g]
  }

  /** The cache that loading builds; `blocks` is what the file system says each file occupies. */
  ghost function Loaded(disk: DiskIndex, files: map<Path, Blob>, blocks: map<Path, nat>, pathLength: nat,
                        now: int): Cache
  {
    map k | k in disk.items && Loads(disk.items[k], files, now) ::
      Entry(Rebuilt(k, disk.items[k], FileOf(disk.items[k], files), BlocksOf(disk.items[k], blocks), pathLength),
            TagsOn(disk, k))
  }

  /** The same entry up to the blocks of its file, and so up to what these count for. */
  ghost predicate SameButBlocks(key: Key, a: Entry, b: Entry, blocks: map<Path, nat>, pathLength: nat)
  {
    && a.tags == b.tags
    && match b.record.value
       case Mapping(_) => a.record == b.record
       case Body(path) =>
         var size := if path in blocks then blocks[path] else 0;
         a.record == b.record.(physicalSize := size, accountedSize := BodySize(key, pathLength, size))
  }

  lemma TagsReloaded(p: Provider, k: Key)
    requires p.Indexed() && p.dirtyGroups == {} && k in p.items
    ensures TagsOn(p.disk, k) == p.Cached()[k].tags
  {
    forall g ensures g in TagsOn(p.disk, k) <==> g in At(p.itemGroups, k) {
      assert At(p.disk.groups, g) == At(p.groups, g);
      assert k in At(p.groups, g) <==> g in At(p.itemGroups, k);
    }
  }

  /** After a commit a restart loses nothing: it finds exactly the entries that have not expired, each
      with its value, expiry, last access, tags, length and checksum; what the file system says of
      the blocks of a body is taken over. */
  lemma RestartKeeps(p: Provider, blocks: map<Path, nat>, now: int)
    requires p.Valid() && p.dirtyItems == {} && p.dirtyGroups == {}
    ensures var c, found := p.Cached(), Loaded(p.disk, p.files, blocks, p.bodyPathLength, now);
            && found.Keys == c.Keys - Due(c, now)
            && forall k :: k in found ==> SameButBlocks(k, found[k], c[k], blocks, p.bodyPathLength)
  {
    hide Total, MappingSize, EncodedSize, Tracks, ReverseIndex, RecencyList, Unscheduled;
    var c, found := p.Cached(), Loaded(p.disk, p.files, blocks, p.bodyPathLength, now);
    forall k
      ensures k in found <==> k in c && k !in Due(c, now)
      ensures k in found ==> SameButBlocks(k, found[k], c[k], blocks, p.bodyPathLength)
    {
      assert OnDisk(k, p.items, p.disk.items);
      if k in p.items {
        TagsReloaded(p, k);
        assert WellFormedRecord(k, c[k].record);
        if IsBody(c[k]) {
          var f := c[k].record.value.path;
          assert Names(c, f);
          assert f in p.files;
        }
      }
    }
  }
}
