/** Editing the task-title buffer. The source keeps `input` as a Rust
    `String`, whose length and ranges count UTF-8 bytes; the model keeps it
    as a sequence of characters and measures bytes with `Utf8Length`. */
module InputBuffer {
  import opened Wrappers

  /** The two panics of `RemoveChar`. The first is the text of a debug
      build; a release build wraps `len - 1` instead, and `drain` then panics
      on the out-of-range start. Either way the program panics. The second is
      the failed assertion `String::drain` makes on its start index. */
  const SubtractOverflow: string := "attempt to subtract with overflow"
  const NotCharBoundary: string := "assertion failed: self.is_char_boundary(start)"

  /** Number of bytes UTF-8 uses for one Unicode scalar value. */
  function Utf8Width(ch: char): (w: nat)
    ensures 1 <= w <= 4
    ensures w == 1 <==> (ch as int) < 0x80
  {
    if (ch as int) < 0x80 then 1
    else if (ch as int) < 0x800 then 2
    else if (ch as int) < 0x1_0000 then 3
    else 4
  }

  /** `String::len`: the byte length of the UTF-8 encoding. */
  function Utf8Length(s: string): (n: nat)
    ensures n == 0 <==> |s| == 0
    ensures n >= |s|
  {
    if |s| == 0 then 0 else Utf8Length(s[..|s| - 1]) + Utf8Width(s[|s| - 1])
  }

  /** A byte offset where some character starts (or the string ends). */
  predicate IsCharBoundary(s: string, b: int) {
    exists k | 0 <= k <= |s| :: Utf8Length(s[..k]) == b
  }

  /** `InputChar`: appending one character. */
  function AppendChar(input: string, ch: char): (r: string)
    ensures |r| == |input| + 1 && r[..|input|] == input && r[|input|] == ch
    ensures Utf8Length(r) == Utf8Length(input) + Utf8Width(ch)
  {
    assert (input + [ch])[..|input|] == input;
    input + [ch]
  }

  /** `RemoveChar` as the source writes it: `drain(len - 1..len)` on the byte
      length. With an empty buffer `len - 1` underflows; when the last
      character takes more than one byte, `len - 1` falls inside it and
      `drain` panics. A panic is an `Err` here. */
  function RemoveCharAsWritten(input: string): (r: Result<string>)
    ensures r.Ok? <==> |input| > 0 && Utf8Width(input[|input| - 1]) == 1
    ensures r.Ok? ==> r.value + [input[|input| - 1]] == input
  {
    var len := Utf8Length(input);
    if len == 0 then Err(SubtractOverflow)
    else
      LastBoundaryIffSingleByte(input);
      if !IsCharBoundary(input, len - 1) then Err(NotCharBoundary)
      else Ok(input[..|input| - 1])
  }

  /** `RemoveChar` as intended: the last character goes, and an empty buffer
      stays empty. */
  function DropLastChar(input: string): (r: string)
    ensures |input| > 0 ==> |r| == |input| - 1 && r + [input[|input| - 1]] == input
    ensures |input| == 0 ==> r == input
  {
    if |input| == 0 then input else input[..|input| - 1]
  }

  // ---------------------------------------------------------------------
  // Lemmas

  /** Byte length grows with the prefix taken. */
  lemma {:induction false} PrefixLengthMonotone(s: string, k: int, m: int)
    requires 0 <= k <= m <= |s|
    ensures Utf8Length(s[..k]) <= Utf8Length(s[..m])
    decreases m - k
  {
    if k < m {
      PrefixLengthMonotone(s, k, m - 1);
      assert s[..m][..m - 1] == s[..m - 1];
    }
  }

  /** The bytes of a string are those of all but its last character, then
      those of the last one. */
  lemma LengthBeforeLast(s: string)
    requires |s| > 0
    ensures Utf8Length(s[..|s| - 1]) + Utf8Width(s[|s| - 1]) == Utf8Length(s)
  {
  }

  /** No character starts strictly inside the last character. */
  lemma NoBoundaryInsideLast(s: string)
    requires |s| > 0 && Utf8Width(s[|s| - 1]) > 1
    ensures !IsCharBoundary(s, Utf8Length(s) - 1)
  {
    var n := |s|;
    var len := Utf8Length(s);
    LengthBeforeLast(s);
    forall k | 0 <= k <= n
      ensures Utf8Length(s[..k]) != len - 1
    {
      if k < n {
        PrefixLengthMonotone(s, k, n - 1);
      } else {
        assert s[..k] == s;
      }
    }
  }

  /** One byte before the end is a character boundary exactly when the last
      character is a single byte. */
  lemma LastBoundaryIffSingleByte(s: string)
    requires |s| > 0
    ensures IsCharBoundary(s, Utf8Length(s) - 1) <==> Utf8Width(s[|s| - 1]) == 1
  {
    if Utf8Width(s[|s| - 1]) == 1 {
      LengthBeforeLast(s);
      assert Utf8Length(s[..|s| - 1]) == Utf8Length(s) - 1;
    } else {
      NoBoundaryInsideLast(s);
    }
  }

  /** Where the source does not panic, it does what `DropLastChar` does. */
  lemma DropLastCharAgrees(input: string)
    requires RemoveCharAsWritten(input).Ok?
    ensures RemoveCharAsWritten(input).value == DropLastChar(input)
  {
  }

  /** Backspace undoes typing a character. */
  lemma DropLastCharUndoesAppend(input: string, ch: char)
    ensures DropLastChar(AppendChar(input, ch)) == input
  {
  }

  /** The source panics on an empty buffer. */
  lemma EmptyBufferPanics()
    ensures RemoveCharAsWritten("") == Err(SubtractOverflow)
    ensures DropLastChar("") == ""
  {
  }

  /** The source panics after a two-byte character such as 'é', where the
      intended operation empties the buffer. */
  lemma AccentedLastCharPanics()
    ensures RemoveCharAsWritten("é").Err?
    ensures DropLastChar("é") == ""
  {
  }
}
