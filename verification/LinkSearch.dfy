/** Finding the links of a chained stream by bisection over byte offsets. */
module LinkSearch {

  const CHUNKSIZE := 65536

  /** A page: where it lies, which logical stream it belongs to, whether it begins one, whether it completes
      the headers of the link's Vorbis stream, and whether it is an audio page of that stream that carries a
      granule position. */
  datatype Page = Page(offset: nat, length: nat, serial: int, bos: bool, headed: bool, marked: bool)

  /** Pages in file order, with room for garbage between them. */
  ghost predicate Sorted(pages: seq<Page>, end: nat)
  {
    && (forall i :: 0 <= i < |pages| ==> pages[i].length > 0 && PageEnd(pages, i) <= end)
    && (forall i, j :: 0 <= i < j < |pages| ==> PageEnd(pages, i) <= pages[j].offset)
  }

  function PageEnd(pages: seq<Page>, i: nat): nat
    requires i < |pages|
  {
    pages[i].offset + pages[i].length
  }

  /** The links: their first pages, the ends of their runs of initial pages, and the pages that complete
      their headers. */
  datatype Layout = Layout(starts: seq<nat>, heads: seq<nat>, datas: seq<nat>)
  {
    predicate Has(l: nat)
    {
      l < |starts| == |heads| == |datas|
    }
  }

  /** Where link `l` ends. */
  ghost function Upto(pages: seq<Page>, lay: Layout, l: nat): nat
    requires l < |lay.starts|
  {
    if l + 1 < |lay.starts| then lay.starts[l + 1] else |pages|
  }

  /** A link begins with one initial page for each of its streams, completes its headers, and goes on to a
      marked page. */
  ghost predicate LinkOk(pages: seq<Page>, lay: Layout, l: nat)
    requires lay.Has(l)
  {
    var from, head, data, upto := lay.starts[l], lay.heads[l], lay.datas[l], Upto(pages, lay, l);
    && from < head <= data < upto <= |pages|
    && (forall k :: from <= k < head ==> pages[k].bos)
    && (forall k :: head <= k < upto ==> !pages[k].bos && Listed(pages, from, head, pages[k].serial))
    && pages[data].headed && (forall k :: head <= k < data ==> !pages[k].headed)
    && (exists k :: data < k < upto && pages[k].marked)
  }

  /** No two of the initial pages of a link have one serial number. */
  ghost predicate Apart(pages: seq<Page>, from: nat, head: nat)
  {
    forall i, j :: from <= i < j < head && j < |pages| ==> pages[i].serial != pages[j].serial
  }

  /** The initial pages of links `m` to `n - 1` are apart. */
  ghost predicate AllApart(pages: seq<Page>, lay: Layout, m: nat, n: nat)
    requires n <= |lay.starts| == |lay.heads|
  {
    forall l :: m <= l < n ==> Apart(pages, lay.starts[l], lay.heads[l])
  }

  /** `s` is the serial number of one of the pages from `from` to `head - 1`. */
  ghost predicate Listed(pages: seq<Page>, from: nat, head: nat, s: int)
  {
    exists k :: from <= k < head && k < |pages| && pages[k].serial == s
  }

  /** Consecutive links that share no serial number. */
  ghost predicate Chained(pages: seq<Page>, lay: Layout)
  {
    && |lay.starts| == |lay.heads| == |lay.datas| > 0 && lay.starts[0] == 0
    && (forall l :: 0 <= l < |lay.starts| ==> LinkOk(pages, lay, l))
    && (forall l, i, j :: 0 <= l < |lay.starts| && lay.starts[l] <= i < Upto(pages, lay, l) <= j < |pages| ==>
          pages[i].serial != pages[j].serial)
  }

  /** The byte offset at which link `l` begins; the first one owns whatever precedes its first page. */
  ghost function LinkStart(pages: seq<Page>, lay: Layout, l: nat): nat
    requires Chained(pages, lay) && l < |lay.starts|
  {
    assert LinkOk(pages, lay, l);
    if l == 0 then 0 else pages[lay.starts[l]].offset
  }

  /** The byte offset at which the headers of link `l` are complete. */
  ghost function DataStart(pages: seq<Page>, lay: Layout, l: nat): nat
    requires Chained(pages, lay) && l < |lay.starts|
  {
    assert LinkOk(pages, lay, l);
    PageEnd(pages, lay.datas[l])
  }

  // ---------------------------------------------------------------------------------------------
  // Reading pages
  // ---------------------------------------------------------------------------------------------

  /** The first page that begins at or after `pos`; the number of pages when there is none. */
  ghost predicate FirstFrom(pages: seq<Page>, pos: nat, i: nat)
  {
    && i <= |pages| && (forall k :: 0 <= k < i ==> pages[k].offset < pos)
    && (forall k :: i <= k < |pages| ==> pos <= pages[k].offset)
  }

  predicate LookupSerialno(s: int, list: seq<int>)
  {
    exists k :: 0 <= k < |list| && list[k] == s
  }

  /** `list` holds the serial numbers of link `l`. */
  ghost predicate SerialsOf(pages: seq<Page>, lay: Layout, l: nat, list: seq<int>)
    requires lay.Has(l)
  {
    forall s :: LookupSerialno(s, list) <==> Listed(pages, lay.starts[l], lay.heads[l], s)
  }

  /** The list tells the link's own pages from those of every later link. */
  lemma ListSeparates(pages: seq<Page>, lay: Layout, l: nat, list: seq<int>, k: nat)
    requires Chained(pages, lay) && lay.Has(l) && SerialsOf(pages, lay, l, list) && lay.starts[l] <= k < |pages|
    ensures LookupSerialno(pages[k].serial, list) <==> k < Upto(pages, lay, l)
  {
    assert LinkOk(pages, lay, l);
    var from, head, upto := lay.starts[l], lay.heads[l], Upto(pages, lay, l);
    if k < head {
      assert Listed(pages, from, head, pages[k].serial);
    }
    if k >= upto {
      forall i | from <= i < head
        ensures pages[i].serial != pages[k].serial
      {
      }
    }
  }

  class OggVorbisFile {
    const pages: seq<Page>
    const end: nat
    var offset: nat
    var offsets: array<nat>
    var dataoffsets: array<nat>
    var links: nat

    ghost predicate Valid()
      reads this
    {
      Sorted(pages, end)
    }

    constructor (ps: seq<Page>, size: nat)
      requires Sorted(ps, size)
      ensures Valid() && pages == ps && end == size && fresh(offsets) && fresh(dataoffsets)
    {
      pages, end, offset, links := ps, size, 0, 0;
      offsets, dataoffsets := new nat[0], new nat[0];
    }

    /** The next whole page, and move past it; -1 at the end of the file. */
    method GetNextPage() returns (i: int)
      requires Valid()
      modifies `offset
      ensures if i >= 0 then i < |pages| && FirstFrom(pages, old(offset), i) && offset == PageEnd(pages, i)
              else i == -1 && FirstFrom(pages, old(offset), |pages|) && offset == old(offset)
    {
      i := 0;
      while i < |pages| && pages[i].offset < offset
        invariant 0 <= i <= |pages| && forall k :: 0 <= k < i ==> pages[k].offset < offset
      {
        i := i + 1;
      }
      ghost var n: nat := i;
      assert FirstFrom(pages, offset, n);
      if i == |pages| {
        return -1;
      }
      offset := pages[i].offset + pages[i].length;
    }

    /** Find where the pages of the current link end: the offset of the first page that is not in its list. */
    method Bisect(from: nat, list: seq<int>, ghost lay: Layout, ghost l: nat) returns (next: nat)
      requires Valid() && Chained(pages, lay) && lay.Has(l + 1) && lay.Has(l) && SerialsOf(pages, lay, l, list)
      requires InLink(pages, lay, l, from)
      modifies `offset
      ensures next == LinkStart(pages, lay, l + 1) <= end
    {
      hide Chained, SerialsOf, LinkOk;
      ghost var boundary := lay.starts[l + 1];
      BoundaryInside(pages, lay, l);
      var searched: nat, endsearched: nat := from, end;
      next := end;
      ghost var nextPage := |pages|;
      while searched < endsearched
        invariant searched <= pages[boundary].offset && endsearched <= end
        invariant boundary <= nextPage <= |pages| && FirstFrom(pages, endsearched, nextPage)
        invariant next == if nextPage < |pages| then pages[nextPage].offset else end
        invariant lay.starts[l] < |pages| && pages[lay.starts[l]].offset <= searched
        decreases endsearched - searched
      {
        var bisect := if endsearched - searched < CHUNKSIZE then searched else (searched + endsearched) / 2;
        offset := bisect;
        var last := GetNextPage();
        if last >= 0 {
          FirstIsLater(pages, end, lay.starts[l], bisect, last);
          ListSeparates(pages, lay, l, list, last);
        }
        if last < 0 || !LookupSerialno(pages[last].serial, list) {
          endsearched := bisect;
          if last >= 0 {
            next := pages[last].offset;
            nextPage := last;
          } else {
            nextPage := |pages|;
          }
        } else {
          searched := offset;
        }
      }
      assert nextPage == boundary;
    }

    /** The serial numbers of a link's initial pages, starting from the link's first page, and on to the page
        that completes the headers. Two initial pages with one serial number are refused. */
    method FetchHeaders(ghost lay: Layout, ghost l: nat) returns (ok: bool, list: seq<int>)
      requires Valid() && Chained(pages, lay) && lay.Has(l) && FirstFrom(pages, offset, lay.starts[l])
      modifies `offset
      ensures ok <==> Apart(pages, lay.starts[l], lay.heads[l])
      ensures ok ==> SerialsOf(pages, lay, l, list) && offset == DataStart(pages, lay, l)
    {
      hide Chained, LinkOk, SerialsOf, FirstFrom, Sorted, Listed, Upto, Apart;
      var i;
      ok, list, i := FetchSerials(lay, l);
      if !ok {
        return;
      }
      HeadFacts(pages, lay, l);
      while !pages[i].headed
        invariant lay.heads[l] <= i <= lay.datas[l] && offset == PageEnd(pages, i)
        decreases lay.datas[l] - i
      {
        ghost var before, was := i, offset;
        i := GetNextPage();
        NextOne(pages, end, before);
        SameFirst(pages, was, before + 1, if i < 0 then |pages| else i);
      }
    }

    method FetchSerials(ghost lay: Layout, ghost l: nat) returns (ok: bool, list: seq<int>, i: int)
      requires Valid() && Chained(pages, lay) && lay.Has(l) && FirstFrom(pages, offset, lay.starts[l])
      modifies `offset
      ensures ok <==> Apart(pages, lay.starts[l], lay.heads[l])
      ensures ok ==>
        SerialsOf(pages, lay, l, list) && 0 <= i < |pages| && i == lay.heads[l] && offset == PageEnd(pages, i)
    {
      hide Chained, LinkOk, SerialsOf, FirstFrom, Sorted, Listed, Upto;
      HeadFacts(pages, lay, l);
      ghost var first, head := lay.starts[l], lay.heads[l];
      list := [];
      i := GetNextPage();
      SameFirst(pages, old(offset), first, if i < 0 then |pages| else i);
      while pages[i].bos
        invariant first <= i <= head && offset == PageEnd(pages, i) && Apart(pages, first, i)
        invariant |list| == i - first && forall k :: 0 <= k < |list| ==> list[k] == pages[first + k].serial
        decreases head - i
      {
        if LookupSerialno(pages[i].serial, list) {
          SeenBefore(pages, first, head, i, list);
          return false, [], i;
        }
        NotSeen(pages, first, i, list);
        list := list + [pages[i].serial];
        ghost var before, was := i, offset;
        i := GetNextPage();
        NextOne(pages, end, before);
        SameFirst(pages, was, before + 1, if i < 0 then |pages| else i);
      }
      ListIsSerials(pages, lay, l, list);
      ok := true;
    }

    /** Read on to the first marked page: the first audio position. */
    method ReadToMark(ghost lay: Layout, ghost l: nat)
      requires Valid() && Chained(pages, lay) && lay.Has(l) && offset == DataStart(pages, lay, l)
      modifies `offset
      ensures InLink(pages, lay, l, offset)
    {
      hide Chained, LinkOk, InLink, FirstFrom, Sorted;
      ghost var mark := HasMark(pages, lay, l);
      ghost var before: nat := lay.datas[l];
      var p := GetNextPage();
      NextOne(pages, end, before);
      SameFirst(pages, old(offset), before + 1, if p < 0 then |pages| else p);
      while p >= 0 && !pages[p].marked && !pages[p].bos
        invariant lay.datas[l] < p <= mark && offset == PageEnd(pages, p)
        decreases mark - p
      {
        ghost var was := offset;
        before := p;
        p := GetNextPage();
        NextOne(pages, end, before);
        SameFirst(pages, was, before + 1, if p < 0 then |pages| else p);
      }
      InsideLink(pages, end, lay, l, p);
    }

    /** Scan the pages from here to the end: the last one, -1 when there is none, and whether a page of stream
        `preferred` was seen with only listed pages after it. */
    method ScanOn(list: seq<int>, preferred: int) returns (i: int, pref: bool)
      requires Valid()
      modifies `offset
      ensures if i < 0 then i == -1 && FirstFrom(pages, old(offset), |pages|) else i == |pages| - 1
      ensures pref ==> i >= 0 && LookupSerialno(pages[i].serial, list)
    {
      hide LookupSerialno, FirstFrom, Sorted;
      i, pref := -1, false;
      ghost var next := FirstPage(pages, end, offset);
      while offset < end
        invariant next <= |pages| && FirstFrom(pages, offset, next)
        invariant if i < 0 then i == -1 && offset == old(offset) else i + 1 == next
        invariant pref ==> i >= 0 && LookupSerialno(pages[i].serial, list)
        decreases |pages| - next
      {
        ghost var was := offset;
        var j := GetNextPage();
        SameFirst(pages, was, next, if j < 0 then |pages| else j);
        if j < 0 {
          break;
        }
        NextOne(pages, end, next);
        next := next + 1;
        i := j;
        if pages[i].serial == preferred {
          pref := true;
        }
        if !LookupSerialno(pages[i].serial, list) {
          pref := false;
        }
      }
      NoneBeyond(pages, end, offset, next);
    }

    /** The serial number to know the end of the file by: that of the last page, or the preferred one if a page
        of it is seen near the end with only listed pages after it. */
    method GetPrevPageSerial(list: seq<int>, preferred: int) returns (serial: int)
      requires Valid() && |pages| > 0
      modifies `offset
      ensures serial == pages[|pages| - 1].serial
           || (serial == preferred && LookupSerialno(pages[|pages| - 1].serial, list))
    {
      hide FirstFrom, Sorted, LookupSerialno;
      EndAbove(pages, end);
      var begin, i, pref := end, -1, false;
      while i == -1
        invariant i == -1 ==> begin > 0
        invariant i != -1 ==> i == |pages| - 1
        invariant pref ==> i >= 0 && LookupSerialno(pages[i].serial, list)
        decreases i == -1, begin
      {
        begin := if begin < CHUNKSIZE then 0 else begin - CHUNKSIZE;
        offset := begin;
        i, pref := ScanOn(list, preferred);
        if i == -1 {
          SomeFromStart(pages, begin);
        }
      }
      serial := if pref then preferred else pages[i].serial;
    }

    /** Find the remaining links, then record where each one and its data begin. A link whose headers are
        refused ends the search. */
    method BisectForward(begin: nat, searched: nat, endserial: int, list: seq<int>, m: nat, ghost lay: Layout)
        returns (ok: bool)
      requires Valid() && Chained(pages, lay) && lay.Has(m) && begin == LinkStart(pages, lay, m)
      requires SerialsOf(pages, lay, m, list) && InLink(pages, lay, m, searched) && EndsFile(pages, lay, m, endserial)
      modifies this
      ensures Valid() && (ok <==> AllApart(pages, lay, m + 1, |lay.starts|))
      ensures ok ==>
        && fresh(offsets) && fresh(dataoffsets) && offsets != dataoffsets
        && links == |lay.starts| && offsets.Length == links + 1 && dataoffsets.Length == links && offsets[links] == end
        && forall k :: m < k < links ==>
             offsets[k] == LinkStart(pages, lay, k) && dataoffsets[k] == DataStart(pages, lay, k)
      decreases |lay.starts| - m
    {
      hide Chained, SerialsOf, InLink, Apart, EndsFile, FirstFrom;
      LastPage(pages, lay, m, list, endserial);
      if LookupSerialno(endserial, list) {
        links := m + 1;
        offsets := new nat[links + 1](i => 0);
        dataoffsets := new nat[links](i => 0);
        offsets[m + 1] := end;
        offsets[m] := begin;
        ok := true;
      } else {
        var next := Bisect(searched, list, lay, m);
        offset := next;
        AtLinkStart(pages, end, lay, m + 1);
        var nextList;
        ok, nextList := FetchHeaders(lay, m + 1);
        if !ok {
          return;
        }
        var dataoffset := offset;
        ReadToMark(lay, m + 1);
        ok := BisectForward(next, offset, endserial, nextList, m + 1, lay);
        if !ok {
          return;
        }
        offsets[m + 1] := next;
        dataoffsets[m + 1] := dataoffset;
      }
    }

    /** Open a seekable file: the tables end up with the start and the data of every link, and the end, exactly
        if no link repeats a serial number among its initial pages. `serialno` is that of the first link's
        Vorbis stream. */
    method OpenSeekable(serialno: int, ghost lay: Layout) returns (ok: bool)
      requires Valid() && Chained(pages, lay) && lay.Has(0) && offset == 0
      requires Listed(pages, lay.starts[0], lay.heads[0], serialno)
      modifies this
      ensures Valid() && (ok <==> AllApart(pages, lay, 0, |lay.starts|))
      ensures ok ==>
        && links == |lay.starts| && offsets.Length == links + 1 && dataoffsets.Length == links && offsets[links] == end
        && forall k :: 0 <= k < links ==>
             offsets[k] == LinkStart(pages, lay, k) && dataoffsets[k] == DataStart(pages, lay, k)
    {
      hide Chained, SerialsOf, InLink, Apart, EndsFile, FirstFrom, Listed;
      StartOfFile(pages, lay);
      var list;
      ok, list := FetchHeaders(lay, 0);
      if !ok {
        return;
      }
      var dataoffset := offset;
      InsideLink(pages, end, lay, 0, DataPage(pages, lay, 0));
      ReadToMark(lay, 0);
      offset := end;
      var endserial := GetPrevPageSerial(list, serialno);
      FileEnds(pages, lay, list, serialno, endserial);
      ok := BisectForward(0, dataoffset, endserial, list, 0, lay);
      if !ok {
        return;
      }
      offsets[0] := 0;
      dataoffsets[0] := dataoffset;
    }
  }

  /** A position in link `l` from which the search may start: past its first page's start, not past its end. */
  ghost predicate InLink(pages: seq<Page>, lay: Layout, l: nat, pos: nat)
    requires Chained(pages, lay) && l < |lay.starts|
  {
    assert LinkOk(pages, lay, l);
    && pages[lay.starts[l]].offset <= pos && PageEnd(pages, lay.starts[l]) <= pos
    && (Upto(pages, lay, l) < |pages| ==> pos <= pages[Upto(pages, lay, l)].offset)
  }

  lemma BoundaryInside(pages: seq<Page>, lay: Layout, l: nat)
    requires Chained(pages, lay) && l + 1 < |lay.starts|
    ensures lay.starts[l] < lay.starts[l + 1] < |pages| && Upto(pages, lay, l) == lay.starts[l + 1]
  {
    assert LinkOk(pages, lay, l) && LinkOk(pages, lay, l + 1);
  }

  lemma FirstIsLater(pages: seq<Page>, end: nat, k: nat, pos: nat, i: nat)
    requires Sorted(pages, end) && k < |pages| && pages[k].offset <= pos && i < |pages| && FirstFrom(pages, pos, i)
    ensures k <= i
  {
    forall j | 0 <= j < k
      ensures pages[j].offset < pos
    {
      assert PageEnd(pages, j) <= pages[k].offset;
    }
    var x := pages[i].offset;
  }

  /** The serial number by which the search knows the last link: that of the last page, or in the last link one
      of its own. */
  ghost predicate EndsFile(pages: seq<Page>, lay: Layout, m: nat, endserial: int)
    requires lay.Has(m)
  {
    && |pages| > 0
    && (endserial == pages[|pages| - 1].serial
        || (m + 1 == |lay.starts| && Listed(pages, lay.starts[m], lay.heads[m], endserial)))
  }

  lemma FileEnds(pages: seq<Page>, lay: Layout, list: seq<int>, serialno: int, endserial: int)
    requires Chained(pages, lay) && lay.Has(0) && SerialsOf(pages, lay, 0, list) && |pages| > 0
    requires Listed(pages, lay.starts[0], lay.heads[0], serialno)
    requires endserial == pages[|pages| - 1].serial
          || (endserial == serialno && LookupSerialno(pages[|pages| - 1].serial, list))
    ensures EndsFile(pages, lay, 0, endserial)
  {
    if endserial != pages[|pages| - 1].serial {
      assert LinkOk(pages, lay, 0);
      ListSeparates(pages, lay, 0, list, |pages| - 1);
      if 1 < |lay.starts| {
        BoundaryInside(pages, lay, 0);
      }
    }
  }

  ghost function DataPage(pages: seq<Page>, lay: Layout, l: nat): (p: nat)
    requires Chained(pages, lay) && lay.Has(l)
    ensures lay.starts[l] <= p < Upto(pages, lay, l) <= |pages| && PageEnd(pages, p) == DataStart(pages, lay, l)
  {
    assert LinkOk(pages, lay, l);
    lay.datas[l]
  }

  ghost function FirstPage(pages: seq<Page>, end: nat, pos: nat): (i: nat)
    requires Sorted(pages, end)
    ensures i <= |pages| && FirstFrom(pages, pos, i)
  {
    FirstPageBelow(pages, end, pos, |pages|)
  }

  ghost function FirstPageBelow(pages: seq<Page>, end: nat, pos: nat, n: nat): (i: nat)
    requires Sorted(pages, end) && n <= |pages| && forall k :: n <= k < |pages| ==> pos <= pages[k].offset
    ensures FirstFrom(pages, pos, i)
  {
    if n > 0 && pos <= pages[n - 1].offset then FirstPageBelow(pages, end, pos, n - 1)
    else
      assert forall k :: 0 <= k < n - 1 ==> PageEnd(pages, k) <= pages[n - 1].offset;
      n
  }

  lemma NoneBeyond(pages: seq<Page>, end: nat, pos: nat, next: nat)
    requires Sorted(pages, end) && FirstFrom(pages, pos, next)
    ensures pos >= end ==> next == |pages|
  {
    assert next < |pages| ==> PageEnd(pages, next) <= end;
  }

  lemma EndAbove(pages: seq<Page>, end: nat)
    requires Sorted(pages, end) && |pages| > 0
    ensures end > 0
  {
    assert PageEnd(pages, 0) <= end;
  }

  lemma SomeFromStart(pages: seq<Page>, pos: nat)
    requires FirstFrom(pages, pos, |pages|) && |pages| > 0
    ensures pos > 0
  {
    assert pages[0].offset < pos;
  }

  lemma SeenBefore(pages: seq<Page>, first: nat, head: nat, i: nat, list: seq<int>)
    requires first <= i < head <= |pages| && LookupSerialno(pages[i].serial, list)
    requires |list| == i - first && forall k :: 0 <= k < |list| ==> list[k] == pages[first + k].serial
    ensures !Apart(pages, first, head)
  {
    var k :| 0 <= k < |list| && list[k] == pages[i].serial;
    assert pages[first + k].serial == pages[i].serial;
  }

  lemma NotSeen(pages: seq<Page>, first: nat, i: nat, list: seq<int>)
    requires first <= i < |pages| && !LookupSerialno(pages[i].serial, list) && Apart(pages, first, i)
    requires |list| == i - first && forall k :: 0 <= k < |list| ==> list[k] == pages[first + k].serial
    ensures Apart(pages, first, i + 1)
  {
    forall k | first <= k < i
      ensures pages[k].serial != pages[i].serial
    {
      assert list[k - first] == pages[k].serial;
    }
  }

  /** The initial pages of a link, and the pages after them up to the end of the headers. */
  lemma HeadFacts(pages: seq<Page>, lay: Layout, l: nat)
    requires Chained(pages, lay) && lay.Has(l)
    ensures lay.starts[l] < lay.heads[l] <= lay.datas[l] < |pages| && !pages[lay.heads[l]].bos
    ensures forall k :: lay.starts[l] <= k < lay.heads[l] ==> pages[k].bos
    ensures pages[lay.datas[l]].headed && forall k :: lay.heads[l] <= k < lay.datas[l] ==> !pages[k].headed
    ensures DataStart(pages, lay, l) == PageEnd(pages, lay.datas[l])
  {
    assert LinkOk(pages, lay, l);
  }

  lemma ListIsSerials(pages: seq<Page>, lay: Layout, l: nat, list: seq<int>)
    requires lay.Has(l) && lay.starts[l] <= lay.heads[l] <= |pages|
    requires |list| == lay.heads[l] - lay.starts[l]
    requires forall k :: 0 <= k < |list| ==> list[k] == pages[lay.starts[l] + k].serial
    ensures SerialsOf(pages, lay, l, list)
  {
    var first, head := lay.starts[l], lay.heads[l];
    forall s
      ensures LookupSerialno(s, list) <==> Listed(pages, first, head, s)
    {
      if Listed(pages, first, head, s) {
        var k :| first <= k < head && k < |pages| && pages[k].serial == s;
        assert list[k - first] == s;
      }
    }
  }

  lemma HasMark(pages: seq<Page>, lay: Layout, l: nat) returns (mark: nat)
    requires Chained(pages, lay) && lay.Has(l)
    ensures lay.starts[l] <= lay.datas[l] < mark < Upto(pages, lay, l) <= |pages| && pages[mark].marked
    ensures DataStart(pages, lay, l) == PageEnd(pages, lay.datas[l])
  {
    assert LinkOk(pages, lay, l);
    mark :| lay.datas[l] < mark < Upto(pages, lay, l) && pages[mark].marked;
  }

  lemma SameFirst(pages: seq<Page>, pos: nat, i: nat, j: nat)
    requires FirstFrom(pages, pos, i) && FirstFrom(pages, pos, j)
    ensures i == j
  {
    var x, y := if i < |pages| then pages[i].offset else 0, if j < |pages| then pages[j].offset else 0;
  }

  /** From the end of one page, the next one is the next one. */
  lemma NextOne(pages: seq<Page>, end: nat, i: nat)
    requires Sorted(pages, end) && i < |pages|
    ensures FirstFrom(pages, PageEnd(pages, i), i + 1)
  {
    forall k | 0 <= k < i + 1
      ensures pages[k].offset < PageEnd(pages, i)
    {
      if k < i {
        assert PageEnd(pages, k) <= pages[i].offset;
      }
    }
  }

  lemma InsideLink(pages: seq<Page>, end: nat, lay: Layout, l: nat, p: nat)
    requires Sorted(pages, end) && Chained(pages, lay) && l < |lay.starts| && lay.starts[l] <= p < Upto(pages, lay, l)
    ensures p < |pages| && InLink(pages, lay, l, PageEnd(pages, p))
  {
    assert LinkOk(pages, lay, l);
    var first := lay.starts[l];
    assert first < p ==> PageEnd(pages, first) <= pages[p].offset;
  }

  /** The serial number of the end is in the list exactly in the last link; until then it is the last page's. */
  lemma LastPage(pages: seq<Page>, lay: Layout, m: nat, list: seq<int>, endserial: int)
    requires Chained(pages, lay) && lay.Has(m) && SerialsOf(pages, lay, m, list) && EndsFile(pages, lay, m, endserial)
    ensures LookupSerialno(endserial, list) <==> m == |lay.starts| - 1
    ensures m + 1 < |lay.starts| ==> lay.Has(m + 1) && EndsFile(pages, lay, m + 1, endserial)
  {
    assert LinkOk(pages, lay, m);
    ListSeparates(pages, lay, m, list, |pages| - 1);
    if m + 1 < |lay.starts| {
      BoundaryInside(pages, lay, m);
    }
  }

  lemma AtLinkStart(pages: seq<Page>, end: nat, lay: Layout, l: nat)
    requires Sorted(pages, end) && Chained(pages, lay) && 0 < l && lay.Has(l)
    ensures FirstFrom(pages, LinkStart(pages, lay, l), lay.starts[l])
  {
    assert LinkOk(pages, lay, l);
    var i := lay.starts[l];
    forall k | 0 <= k < i
      ensures pages[k].offset < pages[i].offset
    {
      assert PageEnd(pages, k) <= pages[i].offset;
    }
    forall k | i <= k < |pages|
      ensures pages[i].offset <= pages[k].offset
    {
      if i < k {
        assert PageEnd(pages, i) <= pages[k].offset;
      }
    }
  }

  lemma StartOfFile(pages: seq<Page>, lay: Layout)
    requires Chained(pages, lay)
    ensures |pages| > 0 && lay.Has(0) && lay.starts[0] == 0 && FirstFrom(pages, 0, 0) && LinkStart(pages, lay, 0) == 0
  {
    assert LinkOk(pages, lay, 0);
  }
}
