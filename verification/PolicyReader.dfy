/** The growing read buffer of p101_error_path_walk_read_policy_json in src/resource.c. */
module PolicyReader {

  const POLICY_INITIAL_CAPACITY: nat := 4096

  function Max(a: nat, b: nat): nat { if a < b then b else a }

  function Min(a: nat, b: nat): nat { if a < b then a else b }

  /**
   fread: any part of what is left, up to the request; nothing only at the end or on an error, which a sound stream
   never has.
   */
  method ReadSome(stream: string, offset: nat, request: nat, buffer: array<char>, at: nat, faulty: bool)
    returns (count: nat, failure: bool)
    requires offset <= |stream| && at + request <= buffer.Length
    modifies buffer
    ensures count <= request && offset + count <= |stream|
    ensures buffer[..] == old(buffer[..at]) + stream[offset..offset + count] + old(buffer[at + count..])
    ensures failure ==> faulty
    ensures !failure && count == 0 && request > 0 ==> offset == |stream|
  {
    failure := *;
    failure := failure && faulty;
    var wanted: int := *;
    var most := Min(request, |stream| - offset);
    count := if 0 < wanted <= most then wanted else most;
    forall k | 0 <= k < count {
      buffer[at + k] := stream[offset + k];
    }
  }

  /** Twice as much, or the limit when that would pass it. */
  method NextCapacity(capacity: nat, limit: nat) returns (next: nat)
    requires 0 < capacity < limit
    ensures capacity < next <= limit && next <= 2 * capacity
  {
    next := if capacity > limit / 2 then limit else capacity * 2;
  }

  /**
   Reads until the limit, the end or an error. However the stream is chopped up, the text
   is the longest prefix that fits, every read asks for at least one byte, and the buffer
   never grows past the limit or past twice what is used.
   */
  method ReadPolicy(stream: string, limit: nat, faulty: bool) returns (text: string, capacity: nat, failed: bool)
    requires limit >= 1
    ensures text <= stream && |text| < capacity <= Max(limit, POLICY_INITIAL_CAPACITY)
    ensures capacity <= Max(POLICY_INITIAL_CAPACITY, 2 * (|text| + 1))
    ensures failed ==> faulty
    ensures !failed ==> |text| == |stream| || |text| >= limit - 1
    ensures !failed && limit >= POLICY_INITIAL_CAPACITY ==> text == stream[..Min(|stream|, limit - 1)]
    ensures !faulty && limit >= POLICY_INITIAL_CAPACITY ==> text == stream[..Min(|stream|, limit - 1)]
  {
    capacity := POLICY_INITIAL_CAPACITY;
    var buffer := new char[capacity];
    var used := 0;
    failed := false;
    while used < limit - 1
      invariant buffer.Length == capacity && used < capacity <= Max(limit, POLICY_INITIAL_CAPACITY)
      invariant capacity <= Max(POLICY_INITIAL_CAPACITY, 2 * (used + 1))
      invariant used <= |stream| && buffer[..used] == stream[..used] && !failed
      invariant fresh(buffer)
      decreases |stream| - used
    {
      if used == capacity - 1 {
        var next := NextCapacity(capacity, limit);
        buffer := Resize(buffer, used, next);
        capacity := next;
      }
      var request := capacity - used - 1;
      assert request >= 1;
      ghost var before := buffer[..used];
      var count, failure := ReadSome(stream, used, request, buffer, used, faulty);
      PrefixGrows(stream, before, buffer[..], used, count);
      used := used + count;
      if failure || count == 0 {
        failed := failure;
        break;
      }
    }
    text := buffer[..used];
    assert used == |stream| ==> stream[..used] == stream;
  }

  lemma PrefixGrows(stream: string, before: string, after: string, used: nat, count: nat)
    requires used + count <= |stream| && before == stream[..used] && used + count <= |after|
    requires before + stream[used..used + count] <= after
    ensures after[..used + count] == stream[..used + count]
  {
  }

  /** realloc: the used part keeps its contents. */
  method Resize(buffer: array<char>, used: nat, capacity: nat) returns (resized: array<char>)
    requires used <= buffer.Length && used <= capacity
    ensures fresh(resized) && resized.Length == capacity && resized[..used] == buffer[..used]
  {
    resized := new char[capacity];
    forall k | 0 <= k < used {
      resized[k] := buffer[k];
    }
  }
}
