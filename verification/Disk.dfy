/**
 A file as a crash sees it: the bytes written so far, the prefix that an fsync has made durable,
 and the earlier contents that a truncation not yet made durable may still bring back.
 */
module Disk {
  import opened Common

  datatype Image = Image(bytes: Bytes, synced: nat) {
    predicate Valid() {
      synced <= |bytes|
    }

    /** After a crash the durable prefix is there, and any part of what follows it. */
    ghost predicate Survives(b: Bytes) {
      synced <= |b| <= |bytes| && b == bytes[..|b|]
    }
  }

  datatype File = File(current: Image, older: seq<Image>) {
    ghost predicate Valid() {
      current.Valid() && forall o :: o in older ==> o.Valid()
    }

    ghost predicate Survives(b: Bytes) {
      current.Survives(b) || exists o :: o in older && o.Survives(b)
    }

    function Write(b: Bytes): File {
      File(Image(current.bytes + b, current.synced), older)
    }

    function Fsync(): File {
      File(Image(current.bytes, |current.bytes|), [])
    }

    /** ftruncate to zero: the contents before it stay possible until the next fsync. */
    function Clear(): File {
      File(Image([], 0), older + [current])
    }
  }

  /** The file found on disk after a crash. */
  function OnDisk(b: Bytes): File {
    File(Image(b, |b|), [])
  }
}
