/** C strings: characters up to, and not including, a terminating NUL. */
module CStrings {

  type Text = seq<char>

  const NUL: char := '\0'

  function Zeros(n: nat): (z: Text)
    ensures |z| == n && forall i :: 0 <= i < n ==> z[i] == NUL
  {
    seq(n, _ => NUL)
  }

  /** The C string in a buffer. */
  function CString(buffer: Text): Text {
    if buffer == [] || buffer[0] == NUL then [] else [buffer[0]] + CString(buffer[1..])
  }

  lemma {:induction false} CStringIs(buffer: Text, text: Text)
    requires |text| < |buffer| && text <= buffer && buffer[|text|] == NUL && NUL !in text
    ensures CString(buffer) == text
  {
    if text != [] {
      CStringIs(buffer[1..], text[1..]);
      assert text == [text[0]] + text[1..];
    }
  }

  /** Row r of a table of fixed-size buffers. */
  ghost function RowOf(table: array2<char>, r: nat): (row: Text)
    requires r < table.Length0
    reads table
    ensures |row| == table.Length1
    ensures forall c :: 0 <= c < table.Length1 ==> row[c] == table[r, c]
  {
    seq(table.Length1, c requires 0 <= c < table.Length1 && r < table.Length0 reads table => table[r, c])
  }
}
