/** The swap file (fs.c writeToSwapFile and readFromSwapFile) as paging uses it: a sequence of
    pages, written and read one page at a time through an open file. */
module SwapFile {
  import opened Common
  import opened PageData
  import FileData
  import OpenFile

  predicate Whole(p: Page) {
    |p.bytes| == PGSIZE
  }

  predicate AllWhole(pages: seq<Page>) {
    forall i :: 0 <= i < |pages| ==> Whole(pages[i])
  }

  /** The contents of the file. */
  function Contents(pages: seq<Page>): seq<Byte> {
    if pages == [] then [] else Contents(pages[..|pages|-1]) + pages[|pages|-1].bytes
  }

  /** A write of page o: writei accepts o up to the end of the file. */
  function FileWith(pages: seq<Page>, o: nat, data: Page): seq<Page>
    requires o <= |pages|
  {
    if o < |pages| then pages[o := data] else pages + [data]
  }

  /** How many bytes of page o get into a file of so many pages. */
  function PageLanded(pages: nat, o: nat): nat {
    OpenFile.Landed(pages * PGSIZE, o * PGSIZE, PGSIZE)
  }

  /** The page p with the first n bytes of data written over it. */
  function Over(p: Page, data: Page, n: nat): Page {
    Page(data.bytes[..Min(n, |data.bytes|)] + if n < |p.bytes| then p.bytes[n..] else [])
  }

  /** The file when n bytes of data have got to page o. */
  function Landing(pages: seq<Page>, o: nat, data: Page, n: nat): seq<Page> {
    if n == 0 || o > |pages| then pages
    else FileWith(pages, o, Over(if o < |pages| then pages[o] else Page([]), data, n))
  }

  /** A page is taken whole exactly when it starts within the file and ends within the largest
      file; all the offsets of the free list do. */
  lemma LandedWhole(pages: nat, o: nat)
    ensures PageLanded(pages, o) <= PGSIZE
    ensures PageLanded(pages, o) == PGSIZE <==> o <= pages && (o + 1) * PGSIZE <= FileData.MAXBYTES
    ensures o > pages ==> PageLanded(pages, o) == 0
  {
    var room := FileData.MAXBYTES - o * PGSIZE;
    if 0 <= room < PGSIZE {
      assert room / OpenFile.CHUNK * OpenFile.CHUNK <= room;
    }
  }

  lemma WholeLanding(pages: seq<Page>, o: nat, data: Page)
    requires Whole(data) && o <= |pages| && AllWhole(pages)
    ensures Landing(pages, o, data, PGSIZE) == FileWith(pages, o, data)
  {
    assert data.bytes[..PGSIZE] + [] == data.bytes;
  }

  // ----- pages and bytes

  lemma {:induction false} ContentsSplit(pages: seq<Page>, o: nat)
    requires o <= |pages| && AllWhole(pages)
    ensures |Contents(pages)| == |pages| * PGSIZE
    ensures Contents(pages[..o]) == Contents(pages)[..o * PGSIZE] && |Contents(pages[..o])| == o * PGSIZE
    decreases |pages|
  {
    if pages != [] {
      var k := |pages| - 1;
      var before := pages[..k];
      ContentsSplit(before, if o <= k then o else k);
      if o <= k {
        assert before[..o] == pages[..o];
      } else {
        assert pages[..o] == pages;
      }
    }
  }

  lemma ContentsAt(pages: seq<Page>, o: nat)
    requires o < |pages| && AllWhole(pages)
    ensures |Contents(pages)| == |pages| * PGSIZE && (o + 1) * PGSIZE <= |pages| * PGSIZE
    ensures Contents(pages)[o * PGSIZE..(o + 1) * PGSIZE] == pages[o].bytes
  {
    ContentsSplit(pages, o);
    ContentsSplit(pages, o + 1);
    var c, all := Contents(pages[..o + 1]), Contents(pages);
    assert pages[..o + 1][..o] == pages[..o];
    assert c == Contents(pages[..o]) + pages[o].bytes;
    assert all[o * PGSIZE..(o + 1) * PGSIZE] == c[o * PGSIZE..];
  }

  lemma OverwriteFront(c: seq<Byte>, t: seq<Byte>, off: nat, s: seq<Byte>)
    requires off + |s| <= |c|
    ensures FileData.Overwrite(c + t, off, s) == FileData.Overwrite(c, off, s) + t
  {
    assert (c + t)[off + |s|..] == c[off + |s|..] + t;
  }

  lemma OverwriteBack(c: seq<Byte>, t: seq<Byte>, s: seq<Byte>)
    requires |s| <= |t| || t == []
    ensures FileData.Overwrite(c + t, |c|, s) == c + (s + if |s| < |t| then t[|s|..] else [])
  {
    if |s| < |t| {
      assert (c + t)[|c| + |s|..] == t[|s|..];
    }
  }

  lemma ContentsLast(pages: seq<Page>, p: Page)
    ensures Contents(pages + [p]) == Contents(pages) + p.bytes
  {
    assert (pages + [p])[..|pages|] == pages;
  }

  /** Bytes written at a page's place change that page. */
  lemma {:induction false} LandingContents(pages: seq<Page>, o: nat, data: Page, n: nat)
    requires AllWhole(pages) && Whole(data) && o <= |pages| && 0 < n <= PGSIZE
    ensures o * PGSIZE <= |Contents(pages)|
    ensures Contents(Landing(pages, o, data, n)) == FileData.Overwrite(Contents(pages), o * PGSIZE, data.bytes[..n])
    decreases |pages|
  {
    hide FileData.Overwrite, Contents;
    ContentsSplit(pages, o);
    if o == |pages| {
      ContentsLast(pages, Over(Page([]), data, n));
      OverwriteBack(Contents(pages), [], data.bytes[..n]);
      assert Contents(pages) + [] == Contents(pages);
    } else {
      var k := |pages| - 1;
      var before, last := pages[..k], pages[k];
      assert pages == before + [last];
      ContentsLast(before, last);
      ContentsSplit(before, k);
      if o == k {
        ContentsLast(before, Over(last, data, n));
        OverwriteBack(Contents(before), last.bytes, data.bytes[..n]);
        assert before[..k] == before;
        assert pages[k := Over(last, data, n)] == before + [Over(last, data, n)];
      } else {
        LandingContents(before, o, data, n);
        ContentsLast(Landing(before, o, data, n), last);
        OverwriteFront(Contents(before), last.bytes, o * PGSIZE, data.bytes[..n]);
        assert Landing(pages, o, data, n) == Landing(before, o, data, n) + [last];
      }
    }
  }

  /** What the write of a page leaves, in bytes and in pages. */
  lemma WriteContents(pages: seq<Page>, o: nat, data: Page)
    requires AllWhole(pages) && Whole(data)
    ensures PageLanded(|pages|, o) <= PGSIZE && |Contents(pages)| == |pages| * PGSIZE
    ensures o > |pages| ==> o * PGSIZE > |Contents(pages)|
    ensures
      var n := PageLanded(|pages|, o);
      Contents(Landing(pages, o, data, n)) ==
        if o > |pages| then Contents(pages)
        else FileData.Overwrite(Contents(pages), o * PGSIZE, data.bytes[..n])
  {
    hide Contents, PageLanded, Landing;
    var n := PageLanded(|pages|, o);
    LandedWhole(|pages|, o);
    ContentsSplit(pages, |pages|);
    assert n == 0 || o > |pages| ==> Landing(pages, o, data, n) == pages by { LandNothing(pages, o, data, n); }
    if n > 0 {
      LandingContents(pages, o, data, n);
    }
  }

  lemma LandNothing(pages: seq<Page>, o: nat, data: Page, n: nat)
    ensures n == 0 || o > |pages| ==> Landing(pages, o, data, n) == pages
  {}

  // ----- through the open file

  /** f is the swap file, open for both, and holds these pages. */
  ghost predicate HoldsPages(f: OpenFile.File, pages: seq<Page>)
    reads f, f.fs
  {
    f.Open() && f.readable && f.writable && f.ip < |f.fs.Files()| && f.fs.Files()[f.ip] == Contents(pages)
  }

  /** writeToSwapFile puts the page in its place, or as many whole chunks of it as fit. */
  method WritePage(f: OpenFile.File, ghost pages: seq<Page>, o: nat, data: Page) returns (r: int, ok: bool)
    requires HoldsPages(f, pages) && AllWhole(pages) && Whole(data) && o * PGSIZE < UINT
    modifies f, f.fs
    ensures PageLanded(|pages|, o) <= PGSIZE
    ensures ok ==> r == if PageLanded(|pages|, o) == PGSIZE then PGSIZE else -1
    ensures ok ==>
      var pages' := Landing(pages, o, data, PageLanded(|pages|, o));
      HoldsPages(f, pages') && f.fs.Files() == old(f.fs.Files())[f.ip := Contents(pages')]
    ensures ok && o <= |pages| && (o + 1) * PGSIZE <= FileData.MAXBYTES ==>
      r == PGSIZE && HoldsPages(f, FileWith(pages, o, data))
  {
    hide Contents, Landing, FileData.Overwrite, OpenFile.Landed;
    WriteContents(pages, o, data);
    ContentsSplit(pages, |pages|);
    LandedWhole(|pages|, o);
    if o <= |pages| {
      WholeLanding(pages, o, data);
    }
    assert PageLanded(|pages|, o) == OpenFile.Landed(|Contents(pages)|, o * PGSIZE, PGSIZE);
    r, ok := f.WriteToSwapFile(data.bytes, o * PGSIZE);
  }

  /** readFromSwapFile brings back the page at o. */
  method ReadPage(f: OpenFile.File, ghost pages: seq<Page>, o: nat) returns (r: int, data: Page)
    requires HoldsPages(f, pages) && AllWhole(pages) && o * PGSIZE < UINT
    modifies f, f.fs
    ensures HoldsPages(f, pages) && f.fs.Files() == old(f.fs.Files())
    ensures o < |pages| ==> r == PGSIZE && data == pages[o]
    ensures o >= |pages| ==> r == (if o == |pages| then 0 else -1) && data == Page([])
  {
    hide Contents;
    ContentsSplit(pages, |pages|);
    f.SizeLimit();
    if o < |pages| {
      ContentsAt(pages, o);
    }
    var dst;
    r, dst := f.ReadFromSwapFile(o * PGSIZE, PGSIZE);
    data := Page(dst);
  }
}
