/** Null-terminated messages picked out of the decrypted control stream. */
module Messages {
  import opened Bytes
  import opened Options

  predicate PrefixAt(buffer: seq<byte>, prefix: seq<byte>, start: nat)
  {
    start + |prefix| <= |buffer| && buffer[start..start + |prefix|] == prefix
  }

  /** The first occurrence of the prefix is at `start`, and the first null byte from there at `end`. */
  ghost predicate MessageAt(buffer: seq<byte>, prefix: seq<byte>, start: nat, end: nat)
  {
    && PrefixAt(buffer, prefix, start) && (forall i :: 0 <= i < start ==> !PrefixAt(buffer, prefix, i))
    && start <= end < |buffer| && buffer[end] == 0 && (forall i :: start <= i < end ==> buffer[i] != 0)
  }

  /** A message with everything up to its null byte leaves the buffer; otherwise the buffer stays. */
  method TakeMessage(buffer: seq<byte>, prefix: seq<byte>) returns (message: Option<seq<byte>>, rest: seq<byte>)
    requires prefix != []
    ensures message.Some? <==> exists start: nat, end: nat :: MessageAt(buffer, prefix, start, end)
    ensures message.Some? ==> exists start: nat, end: nat ::
      MessageAt(buffer, prefix, start, end) && message.value == buffer[start..end] && rest == buffer[end + 1..]
    ensures message.None? ==> rest == buffer
  {
    var start := 0;
    while start + |prefix| <= |buffer| && buffer[start..start + |prefix|] != prefix
      invariant forall i :: 0 <= i < start ==> !PrefixAt(buffer, prefix, i)
    {
      start := start + 1;
    }
    if start + |prefix| > |buffer| {
      return None, buffer;
    }
    var end := start;
    while end < |buffer| && buffer[end] != 0
      invariant start <= end <= |buffer|
      invariant forall i :: start <= i < end ==> buffer[i] != 0
    {
      end := end + 1;
    }
    if end == |buffer| {
      assert PrefixAt(buffer, prefix, start);
      assert forall s: nat, e: nat :: MessageAt(buffer, prefix, s, e) ==> s == start;
      return None, buffer;
    }
    assert MessageAt(buffer, prefix, start, end);
    return Some(buffer[start..end]), buffer[end + 1..];
  }

  lemma MessageIsUnique(buffer: seq<byte>, prefix: seq<byte>, start: nat, end: nat, start': nat, end': nat)
    requires MessageAt(buffer, prefix, start, end) && MessageAt(buffer, prefix, start', end')
    ensures start == start' && end == end'
  {
  }

  /**
   * A message is found where it is as soon as its null byte has come, and what comes later does not
   * change it: how the stream was cut into records does not matter.
   */
  lemma LaterBytesChangeNothing(buffer: seq<byte>, more: seq<byte>, prefix: seq<byte>, start: nat, end: nat)
    requires 0 !in prefix && end < |buffer|
    ensures MessageAt(buffer + more, prefix, start, end) <==> MessageAt(buffer, prefix, start, end)
  {
    var all := buffer + more;
    assert all[..|buffer|] == buffer;
    if MessageAt(all, prefix, start, end) {
      var found := all[start..start + |prefix|];
      assert forall j :: 0 <= j < |found| ==> found[j] in prefix && found[j] == all[start + j];
      assert all[start..start + |prefix|] == buffer[start..start + |prefix|];
      forall i | 0 <= i < start
        ensures !PrefixAt(buffer, prefix, i)
      {
        SamePrefix(buffer, more, prefix, i);
      }
    }
    if MessageAt(buffer, prefix, start, end) {
      forall i | 0 <= i <= start
        ensures PrefixAt(all, prefix, i) == PrefixAt(buffer, prefix, i)
      {
        SamePrefix(buffer, more, prefix, i);
      }
    }
  }

  lemma SamePrefix(buffer: seq<byte>, more: seq<byte>, prefix: seq<byte>, i: nat)
    requires i + |prefix| <= |buffer|
    ensures PrefixAt(buffer + more, prefix, i) == PrefixAt(buffer, prefix, i)
  {
    assert (buffer + more)[i..i + |prefix|] == buffer[i..i + |prefix|];
  }
}
