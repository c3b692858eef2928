/** The three files: heap pages, index pages and the log, with every state they pass through. */
module Disks {
  import opened StorageTypes

  /** What a crash leaves behind. */
  datatype DiskImage = DiskImage(heap: seq<Page>, index: seq<Page>, wal: seq<Byte>)

  function FileOf(d: DiskImage, kind: PageType): seq<Page> {
    match kind
    case HeapFile => d.heap
    case IndexFile => d.index
  }

  /** Pages past the end of a file read as zeros. */
  function ReadPage(d: DiskImage, k: Key): Page {
    var file := FileOf(d, k.kind);
    if 0 <= k.pid < |file| then file[k.pid] else ZeroPage(k.kind)
  }

  /** Writing past the end fills the gap with zeros. */
  function WriteAt(file: seq<Page>, kind: PageType, pid: nat, p: Page): (r: seq<Page>)
    ensures |r| == if pid < |file| then |file| else pid + 1
    ensures forall i :: 0 <= i < |r| ==> r[i] == if i == pid then p else if i < |file| then file[i] else ZeroPage(kind)
  {
    if pid < |file| then file[pid := p]
    else file + seq(pid - |file|, i => ZeroPage(kind)) + [p]
  }

  function WritePage(d: DiskImage, k: Key, p: Page): DiskImage
    requires k.pid >= 0
  {
    match k.kind
    case HeapFile => d.(heap := WriteAt(d.heap, HeapFile, k.pid, p))
    case IndexFile => d.(index := WriteAt(d.index, IndexFile, k.pid, p))
  }

  /** A written page is read back; every other page, present or not, reads as before. */
  lemma ReadAfterWrite(d: DiskImage, k: Key, p: Page, k': Key)
    requires k.pid >= 0
    ensures ReadPage(WritePage(d, k, p), k') == if k' == k then p else ReadPage(d, k')
  {
  }

  class Disk {
    var now: DiskImage
    /** Every state the files have been in, the present one last: what a crash may leave. */
    var history: seq<DiskImage>

    ghost predicate Valid()
      reads this
    {
      history != [] && history[|history| - 1] == now
    }

    constructor (d: DiskImage)
      ensures Valid() && now == d && history == [d]
    {
      now := d;
      history := [d];
    }

    method Write(k: Key, p: Page)
      requires Valid() && k.pid >= 0
      modifies this
      ensures Valid()
      ensures now == WritePage(old(now), k, p)
      ensures history == old(history) + [now]
    {
      now := WritePage(now, k, p);
      history := history + [now];
    }

    /** Replaces the log's bytes, in one step as far as a crash can tell. */
    method WriteLog(wal: seq<Byte>)
      requires Valid()
      modifies this
      ensures Valid()
      ensures now == old(now).(wal := wal)
      ensures history == old(history) + [now]
    {
      now := now.(wal := wal);
      history := history + [now];
    }
  }
}
