/** A forward cursor over a string (src/core/StringReader.ts). */
module StringReader {
  import opened Js

  /** The sentinel `read` and `peek` return at the end: the one-character string "\0". */
  const EOF: string := "\0"

  /** `s.charAt(i)`: the character at `i` as a string, or "" out of range. */
  function CharAt(s: string, i: int): (r: string)
    ensures 0 <= i < |s| ==> r == [s[i]]
    ensures (i < 0 || i >= |s|) ==> r == ""
  {
    if 0 <= i < |s| then [s[i]] else ""
  }

  /** One `read` from cursor `pos`: the string returned and the cursor afterwards. */
  function ReadStep(data: string, pos: nat): (string, nat)
    requires pos <= |data|
  {
    if pos == |data| then (EOF, pos) else (CharAt(data, pos), pos + 1)
  }

  /** What `k` successive `read`s from cursor `pos` return. */
  function Reads(data: string, pos: nat, k: nat): seq<string>
    requires pos <= |data|
    decreases k
  {
    if k == 0 then []
    else
      var (c, next) := ReadStep(data, pos);
      [c] + Reads(data, next, k - 1)
  }

  /** Successive reads return the remaining characters in order and then EOF forever;
      the cursor never passes the end. */
  lemma {:induction false} ReadsInOrder(data: string, pos: nat, k: nat)
    requires pos <= |data|
    ensures |Reads(data, pos, k)| == k
    ensures forall j :: 0 <= j < k ==>
      Reads(data, pos, k)[j] == (if pos + j < |data| then [data[pos + j]] else EOF)
    decreases k
  {
    if k > 0 {
      var (c, next) := ReadStep(data, pos);
      ReadsInOrder(data, next, k - 1);
      var rs := Reads(data, pos, k);
      assert rs == [c] + Reads(data, next, k - 1);
      forall j | 0 <= j < k
        ensures rs[j] == (if pos + j < |data| then [data[pos + j]] else EOF)
      {
        if j > 0 {
          assert rs[j] == Reads(data, next, k - 1)[j - 1];
        }
      }
    }
  }

  /** A NUL character in the data reads exactly like the end of the data. */
  lemma NulReadsAsEof(data: string, pos: nat)
    requires pos < |data| && data[pos] == '\0'
    ensures ReadStep(data, pos).0 == ReadStep(data, |data|).0 == EOF
  {
  }

  class Reader {
    const data: string
    const length: nat
    var pos: nat

    ghost predicate Valid()
      reads this
    {
      length == |data| && pos <= length
    }

    /** `new StringReader(data)`; absent data reads as the empty string. */
    constructor (src: Option<string>)
      ensures Valid() && pos == 0
      ensures data == (if src.Some? then src.value else "")
      ensures length == (if src.Some? then |src.value| else 0)
    {
      data := if src.Some? then src.value else "";
      length := if src.Some? then |src.value| else 0;
      pos := 0;
    }

    /** `peek`: EOF at the end, otherwise the character one past the cursor ("" when
        the cursor is on the last character); the cursor does not move. */
    method Peek() returns (c: string)
      requires Valid()
      ensures pos == length ==> c == EOF
      ensures pos + 1 < length ==> c == [data[pos + 1]]
      ensures pos + 1 == length ==> c == ""
    {
      if pos == length {
        return EOF;
      }
      c := CharAt(data, pos + 1);
    }

    /** `read`: the character under the cursor, which then advances by one; at the
        end, EOF and no move. */
    method Read() returns (c: string)
      requires Valid()
      modifies this
      ensures Valid()
      ensures (c, pos) == ReadStep(data, old(pos))
      ensures old(pos) < length ==> c == [data[old(pos)]] && pos == old(pos) + 1
      ensures old(pos) == length ==> c == EOF && pos == old(pos)
    {
      if pos == length {
        return EOF;
      }
      c := CharAt(data, pos);
      pos := pos + 1;
    }
  }

  /** `peek` answers what the read after the next one will return, while that read is
      still inside the data. */
  lemma PeekIsSecondRead(data: string, pos: nat)
    requires pos + 1 < |data|
    ensures Reads(data, pos, 2)[1] == [data[pos + 1]]
  {
    ReadsInOrder(data, pos, 2);
  }
}
