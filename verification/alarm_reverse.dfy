/** A change of reverse mode: every inverted alarm of every scanned port is marked for a delayed look
    (gpnAlmCfgReverModeChgProc in gpnAlmCfg.c). */
module AlarmReverse {
  import opened AlarmPages
  import opened Words

  /** Bits of page i that carry a sub-type, as the other page loops count them (gpnAlmScan.c). */
  function ValidBits(num: nat, pages: nat, i: nat): (n: nat)
    requires i < pages
    ensures n <= PAGE_BIT_SIZE
  {
    if i + 1 == pages && num % PAGE_BIT_SIZE != 0 then num % PAGE_BIT_SIZE else PAGE_BIT_SIZE
  }

  /** Bits of page i that this function looks at. */
  function ScannedBits(num: nat, pages: nat, i: nat): (n: nat)
    requires i < pages
    ensures n <= PAGE_BIT_SIZE
  {
    if i + 1 < pages || num == PAGE_BIT_SIZE then PAGE_BIT_SIZE else num % PAGE_BIT_SIZE
  }

  function Marked(mark: Word, inverted: Word, n: nat): Word {
    seq(32, j requires 0 <= j < 32 => mark[j] || (j < n && inverted[j]))
  }

  /** Of the first n bits, those inverted and not yet marked. */
  function Fresh(mark: Word, inverted: Word, n: nat): (c: nat)
    requires n <= 32
    ensures c <= n
  {
    if n == 0 then 0 else Fresh(mark, inverted, n - 1) + if inverted[n - 1] && !mark[n - 1] then 1 else 0
  }

  function Ones(w: Word, n: nat): nat
    requires n <= 32
  {
    if n == 0 then 0 else Ones(w, n - 1) + if w[n - 1] then 1 else 0
  }

  /** The marks grow by exactly the freshly marked bits. */
  lemma {:induction false} MarkedGrowsByFresh(mark: Word, inverted: Word, n: nat, upTo: nat)
    requires upTo <= 32
    ensures Ones(Marked(mark, inverted, n), upTo)
         == Ones(mark, upTo) + Fresh(mark, inverted, if upTo <= n then upTo else n)
  {
    if upTo > 0 { MarkedGrowsByFresh(mark, inverted, n, upTo - 1); }
  }

  /** A port's masks: what is inverted, what is marked for delay, and how many marks there are. */
  datatype PortView = PortView(inverted: seq<Word>, marks: seq<Word>, markCount: nat)

  predicate Paged(p: PortView) {
    |p.inverted| == PAGE_NUM && |p.marks| == PAGE_NUM
  }

  /** The marks after the first n pages have been gone through. */
  function MarkPages(p: PortView, num: nat, pages: nat, n: nat): (q: PortView)
    requires Paged(p) && n <= pages <= PAGE_NUM
    ensures Paged(q) && q.inverted == p.inverted
  {
    if n == 0 then p
    else
      var q, bits := MarkPages(p, num, pages, n - 1), ScannedBits(num, pages, n - 1);
      PortView(q.inverted, q.marks[n - 1 := Marked(q.marks[n - 1], q.inverted[n - 1], bits)],
               q.markCount + Fresh(q.marks[n - 1], q.inverted[n - 1], bits))
  }

  /** Each page gone through has its old marks and the inverted bits looked at; the others are untouched. */
  lemma {:induction false} MarkedPage(p: PortView, num: nat, pages: nat, n: nat, i: nat)
    requires Paged(p) && n <= pages <= PAGE_NUM && i < PAGE_NUM
    ensures MarkPages(p, num, pages, n).marks[i]
         == if i < n then Marked(p.marks[i], p.inverted[i], ScannedBits(num, pages, i)) else p.marks[i]
  {
    if n > 0 {
      MarkedPage(p, num, pages, n - 1, i);
      MarkedPage(p, num, pages, n - 1, n - 1);
    }
  }

  function TotalOnes(marks: seq<Word>): nat {
    if marks == [] then 0 else TotalOnes(marks[..|marks| - 1]) + Ones(marks[|marks| - 1], 32)
  }

  lemma {:induction false} TotalWith(marks: seq<Word>, i: nat, w: Word)
    requires i < |marks|
    ensures TotalOnes(marks[i := w]) + Ones(marks[i], 32) == TotalOnes(marks) + Ones(w, 32)
  {
    var n := |marks| - 1;
    if i < n {
      TotalWith(marks[..n], i, w);
      assert marks[i := w][..n] == marks[..n][i := w];
    } else {
      assert marks[i := w][..n] == marks[..n];
    }
  }

  lemma {:induction false} NoneFresh(mark: Word, n: nat)
    requires n <= 32
    ensures Fresh(mark, EMPTY, n) == 0 && Marked(mark, EMPTY, n) == mark
  {
    if n > 0 { NoneFresh(mark, n - 1); }
  }

  /** The counter keeps counting the marks. */
  lemma {:induction false} CountFollowsMarks(p: PortView, num: nat, pages: nat, n: nat)
    requires Paged(p) && n <= pages <= PAGE_NUM && p.markCount == TotalOnes(p.marks)
    ensures var q := MarkPages(p, num, pages, n); q.markCount == TotalOnes(q.marks)
  {
    if n > 0 {
      CountFollowsMarks(p, num, pages, n - 1);
      MarkedPage(p, num, pages, n - 1, n - 1);
      var q, bits := MarkPages(p, num, pages, n - 1), ScannedBits(num, pages, n - 1);
      MarkedGrowsByFresh(q.marks[n - 1], q.inverted[n - 1], bits, 32);
      TotalWith(q.marks, n - 1, Marked(q.marks[n - 1], q.inverted[n - 1], bits));
    }
  }

  /** The page's marks become the old ones and the inverted valid bits. */
  predicate PageRight(p: PortView, num: nat, pages: nat, i: nat)
    requires Paged(p) && i < pages <= PAGE_NUM
  {
    MarkPages(p, num, pages, pages).marks[i] == Marked(p.marks[i], p.inverted[i], ValidBits(num, pages, i))
  }

  /** A type with bits to invert on every page, and no marks. */
  const ALL_INVERTED := PortView(seq(PAGE_NUM, _ => FULL), seq(PAGE_NUM, _ => EMPTY), 0)

  /** Every page is right, whatever the masks, exactly when the number of sub-types is one page or does
      not fill its last page: of a type that fills more than one page the last page is passed over. */
  lemma MarksValidBitsExactly(num: nat, pages: nat)
    requires 1 <= pages <= PAGE_NUM
    ensures (num == PAGE_BIT_SIZE || num % PAGE_BIT_SIZE != 0) ==>
      forall p, i: nat :: Paged(p) && i < pages ==> PageRight(p, num, pages, i)
    ensures !(num == PAGE_BIT_SIZE || num % PAGE_BIT_SIZE != 0) ==> !PageRight(ALL_INVERTED, num, pages, pages - 1)
  {
    if num == PAGE_BIT_SIZE || num % PAGE_BIT_SIZE != 0 {
      forall p, i: nat | Paged(p) && i < pages ensures PageRight(p, num, pages, i) {
        MarkedPage(p, num, pages, pages, i);
      }
    } else {
      var p, last := ALL_INVERTED, pages - 1;
      MarkedPage(p, num, pages, pages, last);
      assert !Marked(p.marks[last], p.inverted[last], 0)[0];
      assert Marked(p.marks[last], p.inverted[last], PAGE_BIT_SIZE)[0];
    }
  }

  class AlmScanPort {
    var iInveAlmInfo: seq<Word>
    var iDelyAlmMark: seq<Word>
    var delyCount: nat

    ghost function View(): PortView
      reads this
    {
      PortView(iInveAlmInfo, iDelyAlmMark, delyCount)
    }

    constructor ()
      ensures Paged(View()) && View().markCount == 0
    {
      iInveAlmInfo, iDelyAlmMark, delyCount := seq(PAGE_NUM, _ => EMPTY), seq(PAGE_NUM, _ => EMPTY), 0;
    }

    /** The bit loop over one page. */
    method MarkPage(i: nat, bitsInPage: nat)
      requires Paged(View()) && i < PAGE_NUM && bitsInPage <= PAGE_BIT_SIZE
      modifies this`iDelyAlmMark, this`delyCount
      ensures iDelyAlmMark == old(iDelyAlmMark)[i := Marked(old(iDelyAlmMark)[i], iInveAlmInfo[i], bitsInPage)]
      ensures delyCount == old(delyCount) + Fresh(old(iDelyAlmMark)[i], iInveAlmInfo[i], bitsInPage)
    {
      ghost var before, inverted := iDelyAlmMark[i], iInveAlmInfo[i];
      assert Marked(before, inverted, 0) == before;
      for j := 0 to bitsInPage
        invariant iDelyAlmMark == old(iDelyAlmMark)[i := Marked(before, inverted, j)]
        invariant delyCount == old(delyCount) + Fresh(before, inverted, j)
      {
        if iInveAlmInfo[i][j] {
          if !iDelyAlmMark[i][j] {
            iDelyAlmMark := iDelyAlmMark[i := iDelyAlmMark[i][j := true]];
            delyCount := delyCount + 1;
          }
        }
        assert iDelyAlmMark[i] == Marked(before, inverted, j + 1);
      }
    }

    /** The page loop for one port. */
    method MarkInverted(num: nat, usedPages: nat)
      requires Paged(View()) && usedPages <= PAGE_NUM
      modifies this
      ensures View() == MarkPages(old(View()), num, usedPages, usedPages)
    {
      for i := 0 to usedPages
        invariant View() == MarkPages(old(View()), num, usedPages, i)
      {
        if iInveAlmInfo[i] == EMPTY {
          NoneFresh(iDelyAlmMark[i], ScannedBits(num, usedPages, i));
          assert iDelyAlmMark == iDelyAlmMark[i := iDelyAlmMark[i]];
          continue;
        }
        var bitsInPage;
        if i + 1 == usedPages {
          if num == PAGE_BIT_SIZE {
            bitsInPage := PAGE_BIT_SIZE;
          } else {
            bitsInPage := num % PAGE_BIT_SIZE;
          }
        } else {
          bitsInPage := PAGE_BIT_SIZE;
        }
        MarkPage(i, bitsInPage);
      }
    }
  }

  /** A scan type, with its queue of ports and the number of them that are in use. */
  datatype ScanType = ScanType(usedPages: nat, subTypeNum: nat, ports: seq<AlmScanPort>, portNum: nat)

  /** The port loop of one scan type: every port in use is marked, page by page, and no other. No port is
      queued twice. */
  method ReverModeChgType(t: ScanType)
    requires t.usedPages <= PAGE_NUM && forall i :: 0 <= i < |t.ports| ==> Paged(t.ports[i].View())
    requires forall i, j :: 0 <= i < j < |t.ports| ==> t.ports[i] != t.ports[j]
    modifies t.ports
    ensures forall i :: 0 <= i < |t.ports| ==> Paged(old(t.ports[i].View()))
    ensures forall i :: 0 <= i < |t.ports| ==>
      t.ports[i].View()
        == if i < t.portNum then MarkPages(old(t.ports[i].View()), t.subTypeNum, t.usedPages, t.usedPages)
           else old(t.ports[i].View())
  {
    var n := 0;
    while n < |t.ports| && n < t.portNum
      invariant 0 <= n <= |t.ports| && n <= t.portNum
      invariant forall i :: 0 <= i < n ==>
        t.ports[i].View() == MarkPages(old(t.ports[i].View()), t.subTypeNum, t.usedPages, t.usedPages)
      invariant forall i :: n <= i < |t.ports| ==> t.ports[i].View() == old(t.ports[i].View())
    {
      assert t.ports[n] in t.ports;
      t.ports[n].MarkInverted(t.subTypeNum, t.usedPages);
      n := n + 1;
    }
  }
}
