/**
 * Searching files for a plaintext secret, chunk by chunk: both versions of the
 * scan keep a tail of what they have read, so that a hit may straddle chunks.
 */
module SecretScan {

  type Byte = n: int | 0 <= n < 256

  /** The needle stands at position i. */
  predicate OccursAt(needle: seq<Byte>, text: seq<Byte>, i: int) {
    0 <= i <= |text| - |needle| && text[i..i + |needle|] == needle
  }

  /** `needle in text`. */
  predicate Occurs(needle: seq<Byte>, text: seq<Byte>) {
    exists i | 0 <= i <= |text| - |needle| :: OccursAt(needle, text, i)
  }

  /** The needle occurs exactly when the text is something, the needle, and something. */
  lemma OccursBetween(needle: seq<Byte>, text: seq<Byte>)
    ensures Occurs(needle, text) <==> exists before, after :: text == before + needle + after
  {
    if Occurs(needle, text) {
      var i :| 0 <= i <= |text| - |needle| && OccursAt(needle, text, i);
      assert text == text[..i] + needle + text[i + |needle|..];
    }
    if before, after :| text == before + needle + after {
      assert OccursAt(needle, text, |before|);
    }
  }

  function Contents(chunks: seq<seq<Byte>>): seq<Byte> {
    if chunks == [] then [] else chunks[0] + Contents(chunks[1..])
  }

  /** `text[-k:]`: the last k bytes, or everything when there are fewer -- or when k is 0. */
  function LastBytes(text: seq<Byte>, k: nat): seq<Byte> {
    if k == 0 || k >= |text| then text else text[|text| - k..]
  }

  lemma {:induction false} ContentsConcat(a: seq<seq<Byte>>, b: seq<seq<Byte>>)
    ensures Contents(a + b) == Contents(a) + Contents(b)
  {
    if a == [] {
      assert a + b == b;
    } else {
      assert (a + b)[1..] == a[1..] + b;
      ContentsConcat(a[1..], b);
    }
  }

  /** A tail of what was read that is long enough to catch every straddling hit. */
  predicate EnoughTail(read: seq<Byte>, tail: seq<Byte>, n: nat) {
    && |tail| <= |read| && read[|read| - |tail|..] == tail
    && (|tail| >= n - 1 || tail == read)
  }

  /** If the needle was not read before, it is read now exactly when the window shows it. */
  lemma WindowSuffices(needle: seq<Byte>, read: seq<Byte>, tail: seq<Byte>, chunk: seq<Byte>)
    requires needle != [] && EnoughTail(read, tail, |needle|) && !Occurs(needle, read)
    ensures Occurs(needle, read + chunk) <==> Occurs(needle, tail + chunk)
  {
    var cut := |read| - |tail|;
    var whole, window := read + chunk, tail + chunk;
    assert read == read[..cut] + tail;
    assert whole[cut..] == window;
    if Occurs(needle, window) {
      var i :| 0 <= i <= |window| - |needle| && OccursAt(needle, window, i);
      assert whole[cut + i..cut + i + |needle|] == window[i..i + |needle|];
      assert OccursAt(needle, whole, cut + i);
    }
    if Occurs(needle, whole) {
      var i :| 0 <= i <= |whole| - |needle| && OccursAt(needle, whole, i);
      if i + |needle| <= |read| {
        assert read[i..i + |needle|] == whole[i..i + |needle|];
        assert OccursAt(needle, read, i);
      } else {
        assert i >= cut;
        assert window[i - cut..i - cut + |needle|] == whole[i..i + |needle|];
        assert OccursAt(needle, window, i - cut);
      }
    }
  }

  /** Keeping the last n - 1 bytes of the window keeps enough. */
  lemma TailStaysEnough(read: seq<Byte>, tail: seq<Byte>, chunk: seq<Byte>, kept: seq<Byte>, n: nat)
    requires n > 0 && EnoughTail(read, tail, n)
    requires kept == LastBytes(tail + chunk, n - 1) || (n == 1 && kept == [])
    ensures EnoughTail(read + chunk, kept, n)
  {
    var whole, window := read + chunk, tail + chunk;
    assert whole[|whole| - |window|..] == window;
    if |kept| < |window| {
      assert whole[|whole| - |kept|..] == window[|window| - |kept|..];
    }
    if |tail| < n - 1 {
      assert window == whole;
    }
  }

  lemma {:induction false} NotInNothing(needle: seq<Byte>)
    requires needle != []
    ensures !Occurs(needle, [])
  {
  }

  /** The needle stays found when more is read. */
  lemma FoundStaysFound(needle: seq<Byte>, read: seq<Byte>, more: seq<Byte>)
    requires Occurs(needle, read)
    ensures Occurs(needle, read + more)
  {
    var i :| 0 <= i <= |read| - |needle| && OccursAt(needle, read, i);
    assert (read + more)[i..i + |needle|] == read[i..i + |needle|];
    assert OccursAt(needle, read + more, i);
  }

  /** The journeys' scan: a one-byte needle makes it keep everything it has read. */
  method ScanFile(needle: seq<Byte>, chunks: seq<seq<Byte>>) returns (hit: bool)
    requires needle != []
    ensures hit <==> Occurs(needle, Contents(chunks))
  {
    hide Occurs;
    var previous: seq<Byte> := [];
    NotInNothing(needle);
    for i := 0 to |chunks|
      invariant !Occurs(needle, Contents(chunks[..i]))
      invariant EnoughTail(Contents(chunks[..i]), previous, |needle|)
    {
      ghost var read := Contents(chunks[..i]);
      ReadOn(chunks, i);
      WindowSuffices(needle, read, previous, chunks[i]);
      if Occurs(needle, previous + chunks[i]) {
        FoundStaysFound(needle, read + chunks[i], Contents(chunks[i + 1..]));
        return true;
      }
      ghost var tail := previous;
      previous := LastBytes(previous + chunks[i], |needle| - 1);
      TailStaysEnough(read, tail, chunks[i], previous, |needle|);
    }
    assert chunks[..|chunks|] == chunks;
    return false;
  }

  /** The release matrix's scan: a one-byte needle makes it keep nothing. */
  method ScanFileKeeping(needle: seq<Byte>, chunks: seq<seq<Byte>>) returns (hit: bool)
    requires needle != []
    ensures hit <==> Occurs(needle, Contents(chunks))
  {
    hide Occurs;
    var previous: seq<Byte> := [];
    NotInNothing(needle);
    for i := 0 to |chunks|
      invariant !Occurs(needle, Contents(chunks[..i]))
      invariant EnoughTail(Contents(chunks[..i]), previous, |needle|)
    {
      ghost var read := Contents(chunks[..i]);
      ReadOn(chunks, i);
      WindowSuffices(needle, read, previous, chunks[i]);
      if Occurs(needle, previous + chunks[i]) {
        FoundStaysFound(needle, read + chunks[i], Contents(chunks[i + 1..]));
        return true;
      }
      ghost var tail := previous;
      var keep := if |needle| - 1 > 0 then |needle| - 1 else 0;
      previous := if keep > 0 then LastBytes(previous + chunks[i], keep) else [];
      TailStaysEnough(read, tail, chunks[i], previous, |needle|);
    }
    assert chunks[..|chunks|] == chunks;
    return false;
  }

  lemma ContentsOfOne(chunk: seq<Byte>)
    ensures Contents([chunk]) == chunk
  {
    assert [chunk][1..] == [] && chunk + [] == chunk;
  }

  lemma ReadOne(chunks: seq<seq<Byte>>, i: nat)
    requires i < |chunks|
    ensures Contents(chunks[..i + 1]) == Contents(chunks[..i]) + chunks[i]
  {
    hide Contents;
    assert chunks[..i + 1] == chunks[..i] + [chunks[i]];
    ContentsConcat(chunks[..i], [chunks[i]]);
    ContentsOfOne(chunks[i]);
  }

  lemma ReadOn(chunks: seq<seq<Byte>>, i: nat)
    requires i < |chunks|
    ensures Contents(chunks[..i + 1]) == Contents(chunks[..i]) + chunks[i]
    ensures Contents(chunks) == Contents(chunks[..i]) + chunks[i] + Contents(chunks[i + 1..])
  {
    hide Contents;
    ReadOne(chunks, i);
    assert chunks == chunks[..i + 1] + chunks[i + 1..];
    ContentsConcat(chunks[..i + 1], chunks[i + 1..]);
  }

  /** All files of all roots: the scan fails exactly when some file holds the secret. */
  method ScanFiles(needle: seq<Byte>, files: seq<seq<seq<Byte>>>) returns (hit: bool)
    requires needle != []
    ensures hit <==> exists k | 0 <= k < |files| :: Occurs(needle, Contents(files[k]))
  {
    hide Occurs;
    for i := 0 to |files|
      invariant forall k | 0 <= k < i :: !Occurs(needle, Contents(files[k]))
    {
      var found := ScanFile(needle, files[i]);
      if found {
        return true;
      }
    }
    return false;
  }
}
