/** Copying a stream while hashing it, whatever sizes the reads return. */
module CopyLoop {
  import opened Wrappers
  import opened Journal
  import opened Markers

  const U64_MAX := 0xFFFF_FFFF_FFFF_FFFF
  const IO_BUFFER_BYTES := 64 * 1024

  /** A source of bytes; `pace` decides how much each read returns. */
  class Reader {
    const pace: nat -> nat
    var rest: Bytes
    var calls: nat

    constructor (pace: nat -> nat, content: Bytes)
      ensures rest == content
    {
      this.pace, rest, calls := pace, content, 0;
    }

    /** Some bytes, at most `limit`; none only at the end. */
    method Read(limit: nat) returns (chunk: Bytes)
      requires limit > 0
      modifies this
      ensures old(rest) == chunk + rest
      ensures |chunk| <= limit && (chunk == [] <==> old(rest) == [])
    {
      var wanted := 1 + pace(calls);
      var n := if wanted < limit then wanted else limit;
      n := if n < |rest| then n else |rest|;
      calls := calls + 1;
      chunk := rest[..n];
      rest := rest[n..];
    }
  }

  class Output {
    var written: Bytes

    constructor ()
      ensures written == []
    {
      written := [];
    }

    method WriteAll(bytes: Bytes)
      modifies this
      ensures written == old(written) + bytes
    {
      written := written + bytes;
    }
  }

  datatype CopyError = SizeOverflow | TooLarge

  lemma Regrouped(written: Bytes, chunk: Bytes, rest: Bytes)
    ensures written + (chunk + rest) == (written + chunk) + rest
  {
  }

  /**
   * Copies everything if it fits `maximum`; otherwise stops after a prefix no longer than
   * `maximum`. The result does not depend on how the reads are cut.
   */
  method CopyAndHash(input: Reader, output: Output, sha256: Bytes -> string, maximum: nat)
    returns (r: Result<(nat, string), CopyError>)
    requires maximum <= U64_MAX
    modifies input, output
    ensures r.Success? <==> |old(input.rest)| <= maximum
    ensures r.Success? ==> r.value == (|old(input.rest)|, sha256(old(input.rest)))
    ensures r.Success? ==> output.written == old(output.written) + old(input.rest)
    ensures old(output.written) <= output.written <= old(output.written) + old(input.rest)
    ensures |output.written| <= |old(output.written)| + maximum
    ensures r == Failure(SizeOverflow) ==> maximum > U64_MAX - IO_BUFFER_BYTES
  {
    var hasher := new Hasher();
    var total := 0;
    ghost var content, before := input.rest, output.written;
    while true
      invariant content == hasher.fed + input.rest && total == |hasher.fed| <= maximum
      invariant output.written == before + hasher.fed
      decreases |input.rest|
    {
      var chunk := input.Read(IO_BUFFER_BYTES);
      Regrouped(hasher.fed, chunk, input.rest);
      if chunk == [] {
        break;
      }
      if total + |chunk| > U64_MAX {
        return Failure(SizeOverflow);
      }
      total := total + |chunk|;
      if total > maximum {
        return Failure(TooLarge);
      }
      hasher.Update(chunk);
      output.WriteAll(chunk);
    }
    assert hasher.fed == content;
    return Success((total, sha256(hasher.fed)));
  }
}
