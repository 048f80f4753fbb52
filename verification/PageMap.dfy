/** Where pages begin: xditview's linked list of page numbers and positions in the (replay) file. */
module PageMap {
  import opened ReplayFile

  class PageMark {
    const number: int
    var position: nat
    const next: PageMark?

    constructor (number: int, position: nat, next: PageMark?)
      ensures this.number == number && this.position == position && this.next == next
    {
      this.number, this.position, this.next := number, position, next;
    }
  }

  class FileMap {
    var first: PageMark?
    ghost var marks: seq<PageMark>
    ghost var pages: map<int, nat>

    /** The list holds one mark for every page in pages. */
    ghost predicate Valid()
      reads this, marks
    {
      && first == (if |marks| == 0 then null else marks[0])
      && (forall i {:trigger marks[i].next} :: 0 <= i < |marks| ==>
            marks[i].next == if i + 1 < |marks| then marks[i + 1] else null)
      && (forall i, j :: 0 <= i < j < |marks| ==> marks[i].number != marks[j].number)
      && (forall i :: 0 <= i < |marks| ==> marks[i].number in pages && pages[marks[i].number] == marks[i].position)
      && forall n :: n in pages ==> exists i :: 0 <= i < |marks| && marks[i].number == n
    }

    constructor ()
      ensures Valid() && pages == map[] && marks == []
    {
      first, marks, pages := null, [], map[];
    }

    /** The mark of a page, or null. */
    method MapPageNumberToFileMap(number: int) returns (m: PageMark?, ghost k: nat)
      requires Valid()
      ensures m == null <==> number !in pages
      ensures m != null ==> k < |marks| && m == marks[k] && m.number == number
    {
      m := first;
      k := 0;
      while m != null
        invariant k <= |marks| && m == (if k < |marks| then marks[k] else null)
        invariant forall i :: 0 <= i < k ==> marks[i].number != number
        decreases |marks| - k
      {
        if m.number == number {
          return;
        }
        assert marks[k].next == m.next;
        m := m.next;
        k := k + 1;
      }
    }

    /** A new mark at the head of the list. */
    method AddMark(number: int) returns (m: PageMark)
      requires Valid() && number !in pages
      modifies this
      ensures Valid() && pages == old(pages)[number := 0] && fresh(m) && marks == [m] + old(marks) && m.number == number
    {
      m := new PageMark(number, 0, first);
      marks := [m] + marks;
      first := m;
      pages := pages[number := 0];
      assert forall i :: 0 < i < |marks| ==> marks[i] == old(marks)[i - 1];
      forall n | n in pages ensures exists i :: 0 <= i < |marks| && marks[i].number == n {
        if n == number {
          assert marks[0].number == n;
        } else {
          var j :| 0 <= j < |old(marks)| && old(marks)[j].number == n;
          assert marks[j + 1].number == n;
        }
      }
    }

    /** The mark of a page, which is made if there is none. */
    method MarkFor(number: int) returns (m: PageMark, ghost k: nat)
      requires Valid()
      modifies this
      ensures Valid() && k < |marks| && m == marks[k] && m.number == number
      ensures pages == old(pages) || pages == old(pages)[number := 0]
      ensures forall i :: 0 <= i < |marks| ==> marks[i] in old(marks) || fresh(marks[i])
    {
      var found;
      found, k := MapPageNumberToFileMap(number);
      if found == null {
        found := AddMark(number);
        k := 0;
      }
      m := found;
    }

    method SetPosition(m: PageMark, ghost k: nat, position: nat)
      requires Valid() && k < |marks| && m == marks[k]
      modifies m, this`pages
      ensures Valid() && pages == old(pages)[m.number := position]
    {
      m.position := position;
      pages := pages[m.number := position];
    }

    /** The position of the file is remembered for a page: from there the file goes on, if nothing is pushed back and
        its end has not been read; the other pages keep their positions. */
    method RememberPagePosition(number: int, reader: Reader)
      requires Valid() && reader.Valid()
      modifies this, marks
      ensures Valid() && reader.Valid()
      ensures pages == old(pages)[number := if reader.copying then reader.tmpPos else reader.filePos]
      ensures reader.NothingPushedBack() && reader.BeforeEnd() ==>
        pages[number] <= reader.Taken() && reader.Stream() == reader.input[pages[number]..]
      ensures forall i :: 0 <= i < |marks| ==> marks[i] in old(marks) || fresh(marks[i])
    {
      hide FileMap.Valid, Reader.Valid, Reader.Stream, Reader.BeforeEnd, Reader.NothingPushedBack;
      var m, k := MarkFor(number);
      var position := reader.Tell();
      SetPosition(m, k, position);
    }

    method SearchPagePosition(number: int) returns (position: int)
      requires Valid()
      ensures position == if number in pages then pages[number] else -1
    {
      var m, k := MapPageNumberToFileMap(number);
      if m == null {
        return -1;
      }
      return m.position;
    }

    /** Going back to a remembered page: the file goes on from the position remembered for it. */
    method GoToPage(number: int, reader: Reader) returns (found: bool)
      requires Valid() && reader.Valid() && (number in pages ==> pages[number] <= reader.Taken())
      modifies reader`readingTmp, reader`tmpPos, reader`filePos
      ensures Valid() && reader.Valid() && (found <==> number in pages)
      ensures found ==>
        (reader.Stream() == reader.input[pages[number]..] <==> reader.NothingPushedBack() && reader.BeforeEnd())
    {
      var position := SearchPagePosition(number);
      found := position != -1;
      if found {
        reader.FileSeek(position);
      }
    }
  }
}
