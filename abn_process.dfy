/**
 * `process_xml_file` of scripts/ingestion/abn_data.py: the stream of parsed
 * elements is filtered down to the records of the `ABR` elements that parse,
 * in document order, and in development mode the loop stops as soon as the
 * running total reaches the sample size.
 */
module AbnProcess {
  import opened Wrappers
  import opened Xml
  import opened AbnParse

  /** What one element of the stream contributes: its parse, when its tag ends with `ABR` and it parses. */
  function RecordsOf(e: Element): seq<ParsedRecord>
  {
    if EndsWith(e.tag, "ABR") && ParseRecord(e).Some? then [ParseRecord(e).value] else []
  }

  /** The concatenation of `f` over `elems`, in order. */
  function Gather<E, R>(elems: seq<E>, f: E -> seq<R>): seq<R>
  {
    if |elems| == 0 then []
    else Gather(elems[..|elems| - 1], f) + f(elems[|elems| - 1])
  }

  /** The records of a whole stream, with no sample cap. */
  function ValidRecords(elems: seq<Element>): seq<ParsedRecord>
  {
    Gather(elems, RecordsOf)
  }

  function Min(a: int, b: int): int
  {
    if a <= b then a else b
  }

  /** The first `n` elements of `s`, or all of `s` when it is shorter. */
  function Take<T>(s: seq<T>, n: int): (r: seq<T>)
    requires n >= 0
    ensures |r| == Min(n, |s|) && r == s[..|r|]
  {
    if n <= |s| then s[..n] else s
  }

  lemma {:induction false} GatherAppend<E, R>(a: seq<E>, b: seq<E>, f: E -> seq<R>)
    ensures Gather(a + b, f) == Gather(a, f) + Gather(b, f)
    decreases |b|
  {
    if |b| == 0 {
      assert a + b == a;
    } else {
      var b' := b[..|b| - 1];
      assert (a + b)[..|a + b| - 1] == a + b';
      assert (a + b)[|a + b| - 1] == b[|b| - 1];
      GatherAppend(a, b', f);
    }
  }

  lemma {:induction false} GatherMembership<E, R>(elems: seq<E>, f: E -> seq<R>, x: R)
    ensures x in Gather(elems, f) <==> exists i :: 0 <= i < |elems| && x in f(elems[i])
  {
    if |elems| > 0 {
      var n := |elems| - 1;
      var init := elems[..n];
      GatherMembership(init, f, x);
      if x in Gather(init, f) {
        var i :| 0 <= i < |init| && x in f(init[i]);
        assert elems[i] == init[i];
      } else if x !in f(elems[n]) {
        forall i | 0 <= i < |elems| ensures x !in f(elems[i]) {
          if i < n {
            assert elems[i] == init[i];
          }
        }
      }
    }
  }

  /** Filtering distributes over concatenation, so document order is kept. */
  lemma ValidRecordsAppend(a: seq<Element>, b: seq<Element>)
    ensures ValidRecords(a + b) == ValidRecords(a) + ValidRecords(b)
  {
    GatherAppend(a, b, RecordsOf);
  }

  /** One more element of the stream adds exactly its own contribution. */
  lemma ValidRecordsSnoc(elems: seq<Element>, i: nat)
    requires i < |elems|
    ensures ValidRecords(elems[..i + 1]) == ValidRecords(elems[..i]) + RecordsOf(elems[i])
  {
    assert elems[..i + 1][..i] == elems[..i];
  }

  /** The records of a prefix of the stream are a prefix of the records of the stream. */
  lemma ValidRecordsPrefix(elems: seq<Element>, i: nat)
    requires i <= |elems|
    ensures ValidRecords(elems[..i]) <= ValidRecords(elems)
  {
    assert elems == elems[..i] + elems[i..];
    GatherAppend(elems[..i], elems[i..], RecordsOf);
  }

  /** A record is returned exactly when it is the contribution of an element of the stream. */
  lemma ValidRecordsMembership(elems: seq<Element>, x: ParsedRecord)
    ensures x in ValidRecords(elems) <==> exists i :: 0 <= i < |elems| && x in RecordsOf(elems[i])
  {
    GatherMembership(elems, RecordsOf, x);
  }

  /** What `RecordsOf` holds: the parse of an element whose tag ends with `ABR`, when there is one. */
  lemma RecordsOfMembership(e: Element, x: ParsedRecord)
    ensures x in RecordsOf(e) <==> EndsWith(e.tag, "ABR") && ParseRecord(e) == Some(x)
  {
  }

  /** The loop body for one element: the record of an `ABR` element that parses, appended once. */
  method ProcessElement(elem: Element) returns (found: seq<ParsedRecord>)
    ensures found == RecordsOf(elem) && |found| <= 1
  {
    found := [];
    if EndsWith(elem.tag, "ABR") {
      var record := ParseXmlRecord(elem);
      if record.Some? {
        found := [record.value];
      }
    }
  }

  /**
   * `process_xml_file` over the end events of one file. Outside development
   * mode every valid record is returned; in development mode the result is
   * capped at `sampleSize - currentCount` records. The cap is tested after
   * every element, so when the count is already at the sample size the first
   * element is still processed before the loop stops.
   */
  method ProcessXmlFile(stream: seq<Element>, currentCount: int, devMode: bool, sampleSize: int)
    returns (records: seq<ParsedRecord>)
    ensures !devMode ==> records == ValidRecords(stream)
    ensures devMode && currentCount < sampleSize ==> records == Take(ValidRecords(stream), sampleSize - currentCount)
    ensures devMode && currentCount >= sampleSize ==> records == ValidRecords(stream[..Min(1, |stream|)])
  {
    records := [];
    var count := 0;
    var i := 0;
    ghost var stopped := false;
    while i < |stream|
      invariant 0 <= i <= |stream|
      invariant records == ValidRecords(stream[..i])
      invariant count == |records|
      invariant devMode && currentCount < sampleSize ==> currentCount + count < sampleSize
      invariant devMode && currentCount >= sampleSize ==> i == 0
    {
      var found := ProcessElement(stream[i]);
      records := records + found;
      count := count + |found|;
      ValidRecordsSnoc(stream, i);
      i := i + 1;

      if devMode && currentCount + count >= sampleSize {
        stopped := true;
        break;
      }
    }
    ProcessOutcome(stream, currentCount, devMode, sampleSize, i, records, stopped);
  }

  /** What the loop of `ProcessXmlFile` has gathered when it ends, by exhausting the stream or by reaching the cap. */
  lemma ProcessOutcome(stream: seq<Element>, currentCount: int, devMode: bool, sampleSize: int,
                       i: nat, records: seq<ParsedRecord>, stopped: bool)
    requires i <= |stream| && records == ValidRecords(stream[..i])
    requires !stopped ==> i == |stream|
    requires !stopped && devMode && currentCount < sampleSize ==> currentCount + |records| < sampleSize
    requires stopped ==> devMode && (currentCount < sampleSize ==> currentCount + |records| == sampleSize)
    requires stopped && currentCount >= sampleSize ==> i == 1
    requires !stopped && devMode && currentCount >= sampleSize ==> i == 0
    ensures !devMode ==> records == ValidRecords(stream)
    ensures devMode && currentCount < sampleSize ==> records == Take(ValidRecords(stream), sampleSize - currentCount)
    ensures devMode && currentCount >= sampleSize ==> records == ValidRecords(stream[..Min(1, |stream|)])
  {
    if !stopped {
      assert stream[..i] == stream;
      if devMode && currentCount < sampleSize {
        SampleCapBound(stream, currentCount, sampleSize);
      }
    } else if currentCount < sampleSize {
      CapReached(stream, i, sampleSize - currentCount);
    }
  }

  /** When the records of a prefix of the stream reach the cap, they are the capped records of the whole stream. */
  lemma CapReached(stream: seq<Element>, i: nat, cap: int)
    requires i <= |stream| && |ValidRecords(stream[..i])| == cap
    ensures ValidRecords(stream[..i]) == Take(ValidRecords(stream), cap)
  {
    ValidRecordsPrefix(stream, i);
  }

  /** Outside development mode nothing is capped; in development mode with room left the result never exceeds it. */
  lemma SampleCapBound(stream: seq<Element>, currentCount: int, sampleSize: int)
    requires currentCount < sampleSize
    ensures |Take(ValidRecords(stream), sampleSize - currentCount)| <= sampleSize - currentCount
    ensures |ValidRecords(stream)| <= sampleSize - currentCount ==>
              Take(ValidRecords(stream), sampleSize - currentCount) == ValidRecords(stream)
  {
  }
}
