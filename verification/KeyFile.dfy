/** src/infrastructure/security/file_key_provider.py: the short-read loop and the length check. */
module KeyFile {
  import opened Basics

  const KEY_SIZE := 32

  /** An open regular file: `os.read` returns some nonempty part of what is left, or nothing at its end. */
  class Descriptor {
    const content: Bytes
    var position: nat

    ghost predicate Valid()
      reads this
    {
      position <= |content|
    }

    constructor (content: Bytes)
      ensures Valid() && this.content == content && position == 0
    {
      this.content := content;
      position := 0;
    }

    /** `offered` is how much the kernel would like to deliver this time. */
    method Read(max: nat, offered: nat) returns (chunk: Bytes)
      requires Valid()
      modifies this
      ensures Valid() && old(position) <= position && position - old(position) <= max
      ensures chunk == content[old(position)..position]
      ensures chunk == [] <==> max == 0 || old(position) == |content|
    {
      var n := Min(Max(offered, 1), Min(max, |content| - position));
      chunk := content[position..position + n];
      position := position + n;
    }
  }

  function Join(chunks: seq<Bytes>): Bytes {
    if chunks == [] then [] else Join(chunks[..|chunks| - 1]) + chunks[|chunks| - 1]
  }

  lemma JoinSnoc(chunks: seq<Bytes>, chunk: Bytes)
    ensures Join(chunks + [chunk]) == Join(chunks) + chunk
  {
    assert (chunks + [chunk])[..|chunks|] == chunks;
  }

  /** `_read_key`: whatever the sizes of the partial reads, the first 33 bytes or the whole file. */
  method ReadKey(file: Descriptor, schedule: nat -> nat) returns (key: Bytes)
    requires file.Valid() && file.position == 0
    modifies file
    ensures key == if |file.content| <= 33 then file.content else file.content[..33]
  {
    var chunks: seq<Bytes> := [];
    var remaining := KEY_SIZE + 1;
    var turn := 0;
    while remaining > 0
      invariant file.Valid() && 0 <= remaining
      invariant remaining + file.position == KEY_SIZE + 1
      invariant Join(chunks) == file.content[..file.position]
      decreases remaining
    {
      ghost var before := file.position;
      var chunk := file.Read(remaining, schedule(turn));
      if chunk == [] {
        break;
      }
      JoinSnoc(chunks, chunk);
      assert file.content[..before] + chunk == file.content[..file.position];
      chunks := chunks + [chunk];
      remaining := remaining - |chunk|;
      turn := turn + 1;
    }
    return Join(chunks);
  }

  /** `get_key` on a file that opens: the whole content when it is exactly 32 bytes long, an error otherwise. */
  method GetKey(content: Bytes, schedule: nat -> nat) returns (key: Option<Bytes>)
    ensures key == if |content| == 32 then Some(content) else None
  {
    var file := new Descriptor(content);
    var bytes := ReadKey(file, schedule);
    if |bytes| != KEY_SIZE {
      return None;
    }
    assert content[..|content|] == content;
    return Some(bytes);
  }
}
