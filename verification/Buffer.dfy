/** The growable strings of src/ds/buffer.c: a length and a NUL-terminated heap buffer. */
module Buffer {
  import opened CStrings

  /** What `strncpy` makes of a buffer of this content: from the first NUL on, only NULs. */
  function Strncpy(content: Text): (copy: Text)
    ensures |copy| == |content|
  {
    if content == [] then []
    else if content[0] == NUL then Zeros(|content|)
    else [content[0]] + Strncpy(content[1..])
  }

  /** It is faithful exactly when nothing but NULs follows a NUL. */
  lemma {:induction false} StrncpyIsFaithful(content: Text)
    ensures Strncpy(content) == content
       <==> forall i, k :: 0 <= i < k < |content| && content[i] == NUL ==> content[k] == NUL
  {
    if content != [] && content[0] != NUL {
      StrncpyIsFaithful(content[1..]);
      var tail := content[1..];
      assert content == [content[0]] + tail;
      if Strncpy(tail) == tail {
        forall i, k | 0 <= i < k < |content| && content[i] == NUL ensures content[k] == NUL {
          assert tail[i - 1] == NUL && tail[k - 1] == content[k];
        }
      } else {
        var i, k :| 0 <= i < k < |tail| && tail[i] == NUL && tail[k] != NUL;
        assert content[i + 1] == NUL && content[k + 1] != NUL;
      }
    }
  }

  /** In any case each character is kept up to the first NUL, and is NUL from there on. */
  lemma {:induction false} StrncpyAt(content: Text, i: nat)
    requires i < |content|
    ensures Strncpy(content)[i] == if NUL in content[..i + 1] then NUL else content[i]
  {
    if content[0] != NUL && i > 0 {
      StrncpyAt(content[1..], i - 1);
      assert content[..i + 1] == [content[0]] + content[1..][..i];
    }
  }

  class StringBuffer {
    var len: nat
    var data: array<char>

    ghost predicate Valid()
      reads this, data
    {
      len < data.Length && data[len] == NUL
    }

    ghost function Content(): (content: Text)
      requires Valid()
      reads this, data
      ensures |content| == len
    {
      data[..len]
    }

    /** `new_string`. */
    constructor FromText(text: Text)
      requires NUL !in text
      ensures Valid() && Content() == text && fresh(data)
    {
      len := |text|;
      data := new char[|text| + 1];
      new;
      forall i | 0 <= i < |text| {
        data[i] := text[i];
      }
      data[len] := NUL;
    }

    /** `new_n_string`: n bytes, not initialised, and a NUL. */
    constructor OfLength(n: nat)
      ensures Valid() && len == n && fresh(data) && data.Length == n + 1
    {
      len := n;
      data := new char[n + 1];
      new;
      data[n] := NUL;
    }

    /** `realloc` to the given size. */
    method Reallocate(size: nat)
      requires Valid() && size > len
      modifies this`data
      ensures Valid() && fresh(data) && data.Length == size && Content() == old(Content())
    {
      var ptr := new char[size];
      forall i | 0 <= i <= len {
        ptr[i] := data[i];
      }
      data := ptr;
    }

    /** `strncpy(ptr + len, b, n)` and the NUL behind it. */
    method CopyBehind(source: Text)
      requires Valid() && data.Length == len + |source| + 1
      modifies this`len, data
      ensures Valid() && data == old(data) && Content() == old(Content()) + Strncpy(source)
    {
      ghost var content := Content();
      ghost var copy := Strncpy(source);
      var ended := false;
      for i := 0 to |source|
        invariant len == |content| && data[..len] == content
        invariant data[len..len + i] == copy[..i]
        invariant ended ==> copy[i..] == Zeros(|source| - i)
        invariant !ended ==> copy[i..] == Strncpy(source[i..])
      {
        assert source[i..][1..] == source[i + 1..];
        assert copy[i..][1..] == copy[i + 1..];
        if source[i] == NUL {
          ended := true;
        }
        data[len + i] := if ended then NUL else source[i];
        assert data[len..len + i + 1] == data[len..len + i] + [data[len + i]];
        assert copy[..i + 1] == copy[..i] + [copy[i]];
        assert copy[i] == copy[i..][0];
      }
      data[len + |source|] := NUL;
      len := len + |source|;
      assert data[..len] == content + copy;
    }

    /** `append_string`. */
    method Append(b: StringBuffer)
      requires Valid() && b.Valid() && b != this
      modifies this
      ensures Valid() && fresh(data) && Content() == old(Content()) + Strncpy(old(b.Content()))
    {
      var source := b.data[..b.len];
      Reallocate(len + |source| + 1);
      CopyBehind(source);
    }

    /** `append_string_cstr`. */
    method AppendText(text: Text)
      requires Valid() && NUL !in text
      modifies this
      ensures Valid() && fresh(data) && Content() == old(Content()) + text
    {
      Reallocate(len + |text| + 1);
      CopyBehind(text);
      StrncpyIsFaithful(text);
    }

    /** `copy_string`: byte by byte, NULs and all. */
    method Copy() returns (copy: StringBuffer)
      requires Valid()
      ensures fresh(copy) && copy.Valid() && fresh(copy.data) && copy.Content() == Content()
    {
      copy := new StringBuffer.OfLength(len);
      forall i | 0 <= i < len {
        copy.data[i] := data[i];
      }
    }

    /** `snprintf(data, cap, ...)` of a line, and the caller's use of its result as the length:
        the result counts the whole line, of which cap - 1 characters were written. */
    method PrintLine(line: Text, cap: nat)
      requires NUL !in line && 0 < cap <= data.Length && |line| < data.Length
      modifies this`len, data
      ensures data == old(data) && len == |line| && Valid()
      ensures Content()[..if |line| < cap then |line| else cap - 1] == line[..if |line| < cap then |line| else cap - 1]
      ensures |line| >= cap ==> Content()[cap - 1] == NUL
      ensures Content() == line <==> |line| < cap
    {
      var written := if |line| < cap then |line| else cap - 1;
      forall i | 0 <= i < written {
        data[i] := line[i];
      }
      data[written] := NUL;
      data[|line|] := NUL;
      len := |line|;
      assert |line| >= cap ==> line[cap - 1] != NUL;
    }
  }
}
