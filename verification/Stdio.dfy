/** A FILE as the code uses it: the bytes, a read position and the end-of-file flag. */
module Stdio {
  type Byte = b: int | 0 <= b < 256

  datatype Option<+T> = None | Some(value: T)

  class Stream {
    var data: seq<Byte>
    var pos: nat
    var eof: bool

    constructor (content: seq<Byte>)
      ensures data == content && pos == 0 && !eof
    {
      data, pos, eof := content, 0, false;
    }

    ghost predicate Valid()
      reads this
    {
      pos <= |data|
    }

    /** The bytes that have not been read yet. */
    function Remaining(): seq<Byte>
      reads this
      requires Valid()
    {
      data[pos..]
    }

    /** fread of `n` single bytes: asking for more than there is sets the end-of-file flag, asking for exactly
        what is left does not. */
    method Fread(n: nat) returns (got: seq<Byte>)
      requires Valid()
      modifies this
      ensures Valid() && data == old(data)
      ensures got == if n <= |old(Remaining())| then old(Remaining())[..n] else old(Remaining())
      ensures Remaining() == old(Remaining())[|got|..] && pos == old(pos) + |got|
      ensures eof == (old(eof) || n > |old(Remaining())|)
    {
      if n <= |data| - pos {
        got := data[pos..pos + n];
        pos := pos + n;
      } else {
        got := data[pos..];
        pos := |data|;
        eof := true;
      }
    }

    /** fgetc; `None` is the EOF result. */
    method Fgetc() returns (c: Option<Byte>)
      requires Valid()
      modifies this
      ensures Valid() && data == old(data)
      ensures old(Remaining()) == [] ==> c == None && eof && pos == old(pos)
      ensures old(Remaining()) != [] ==> c == Some(old(Remaining())[0]) && eof == old(eof) && pos == old(pos) + 1
    {
      if pos < |data| {
        c := Some(data[pos]);
        pos := pos + 1;
      } else {
        c := None;
        eof := true;
      }
    }

    /** fwrite to a file opened for writing. */
    method Fwrite(bytes: seq<Byte>)
      modifies this
      ensures data == old(data) + bytes && pos == old(pos) && eof == old(eof)
    {
      data := data + bytes;
    }
  }
}
