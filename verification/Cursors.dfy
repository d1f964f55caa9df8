/** Cursors over sorted entries: what every iterator of the store promises
    (include/leveldb/iterator.h), as an index into one sorted sequence. */
module Cursors {
  import opened InternalKeys
  import opened VersionReads

  /** A position in a sorted run; past the end means not valid. */
  datatype Cursor = Cursor(entries: seq<Entry>, pos: nat) {
    predicate Valid() {
      pos < |entries|
    }

    function Key(): InternalKey
      requires Valid()
    {
      entries[pos].key
    }

    function SeekToFirst(): Cursor {
      this.(pos := 0)
    }

    function SeekToLast(): Cursor {
      this.(pos := if entries == [] then 0 else |entries| - 1)
    }

    /** To the first entry at or after `target`. */
    function Seek(target: InternalKey): Cursor {
      this.(pos := SeekIndex(entries, target))
    }

    function Next(): Cursor
      requires Valid()
    {
      this.(pos := pos + 1)
    }

    function Prev(): Cursor
      requires Valid()
    {
      this.(pos := if pos == 0 then |entries| else pos - 1)
    }
  }
}
