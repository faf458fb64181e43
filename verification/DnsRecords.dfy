/** Resource records and whole messages, read back from the layout of sections 4.1.1 to 4.1.3 of RFC 1035. */
module DnsRecords {
  import opened Sequences
  import opened Wire
  import opened DnsNames
  import opened DnsPacket

  datatype Entry = Entry(labels: seq<Bytes>, kind: Short, class_: Short, ttl: nat, data: Bytes)

  predicate ProperEntry(e: Entry) {
    ProperLabels(e.labels) && e.ttl < 0x1_0000_0000 && |e.data| < 0x1_0000
  }

  function NameBytes(labels: seq<Bytes>): (b: Bytes)
    requires ProperLabels(labels)
    ensures b != []
  {
    LabelBytes(labels) + [0]
  }

  /** Type, class, time to live and length, ten bytes in all. */
  function FixedBytes(e: Entry): (b: Bytes)
    requires ProperEntry(e)
    ensures |b| == 10
  {
    [e.kind / 0x100, e.kind % 0x100, e.class_ / 0x100, e.class_ % 0x100]
    + [e.ttl / 0x100_0000, e.ttl / 0x1_0000 % 0x100, e.ttl / 0x100 % 0x100, e.ttl % 0x100]
    + [|e.data| / 0x100, |e.data| % 0x100]
  }

  function EntryBytes(e: Entry): Bytes
    requires ProperEntry(e)
  {
    NameBytes(e.labels) + FixedBytes(e) + e.data
  }

  /** The record as it is read at `offset`. */
  function RecordAt(e: Entry, offset: nat): Record
    requires ProperEntry(e)
  {
    Record(DottedName(e.labels), e.kind, e.class_, e.ttl, e.data, offset + |NameBytes(e.labels)| + 10)
  }

  lemma FixedReadsBack(before: Bytes, e: Entry, after: Bytes)
    requires ProperEntry(e)
    ensures var data, at := before + FixedBytes(e) + after, |before|;
            && ShortAt(data, at) == e.kind && ShortAt(data, at + 2) == e.class_
            && ShortAt(data, at + 4) * 0x1_0000 + ShortAt(data, at + 6) == e.ttl
            && ShortAt(data, at + 8) == |e.data|
  {
    var data, at, fixed := before + FixedBytes(e) + after, |before|, FixedBytes(e);
    forall i | 0 <= i < 10 ensures data[at + i] == fixed[i] {
    }
    TtlParts(e.ttl);
  }

  lemma TtlParts(n: nat)
    requires n < 0x1_0000_0000
    ensures (n / 0x100_0000 * 0x100 + n / 0x1_0000 % 0x100) * 0x1_0000 + (n / 0x100 % 0x100 * 0x100 + n % 0x100) == n
  {
  }

  lemma NameStandsDecodes(before: Bytes, labels: seq<Bytes>, after: Bytes)
    requires ProperLabels(labels)
    ensures Decoded(before + NameBytes(labels) + after, |before|) ==
            Some((DottedName(labels), |before| + |NameBytes(labels)|))
  {
    EncodedDotted(labels);
    NameRoundTrip(before, labels, after);
  }

  /** A record is read back from any surroundings, with the place of its data. */
  lemma RecordRoundTrip(before: Bytes, e: Entry, after: Bytes)
    requires ProperEntry(e)
    ensures var bytes := EntryBytes(e);
            ParseRecord(before + bytes + after, |before|) == Some((RecordAt(e, |before|), |before| + |bytes|))
  {
    var name, fixed := NameBytes(e.labels), FixedBytes(e);
    NameStandsDecodes(before, e.labels, fixed + e.data + after);
    FixedReadsBack(before + name, e, e.data + after);
    hide NameBytes, FixedBytes, Decoded, DottedName, ShortAt, LabelBytes;
    ThreeParts(before, name, fixed, e.data, after);
    var data, next := before + (name + fixed + e.data) + after, |before| + |name|;
    assert data[next + 10..next + 10 + |e.data|] == e.data;
  }

  function SectionBytes(entries: seq<Entry>): Bytes
    requires forall i :: 0 <= i < |entries| ==> ProperEntry(entries[i])
  {
    if entries == [] then []
    else SectionBytes(entries[..|entries| - 1]) + EntryBytes(entries[|entries| - 1])
  }

  function RecordsFrom(entries: seq<Entry>, offset: nat): seq<Record>
    requires forall i :: 0 <= i < |entries| ==> ProperEntry(entries[i])
  {
    if entries == [] then []
    else
      var front, last := entries[..|entries| - 1], entries[|entries| - 1];
      RecordsFrom(front, offset) + [RecordAt(last, offset + |SectionBytes(front)|)]
  }

  lemma ParsedOneMoreRecord(data: Bytes, offset: nat, records: seq<Record>, next: nat, last: Record, end: nat)
    requires ParseRecords(data, offset, |records|) == Some((records, next))
    requires ParseRecord(data, next) == Some((last, end))
    ensures ParseRecords(data, offset, |records| + 1) == Some((records + [last], end))
  {
    hide ParseRecord;
  }

  lemma {:induction false} SectionRoundTrip(before: Bytes, entries: seq<Entry>, after: Bytes)
    requires forall i :: 0 <= i < |entries| ==> ProperEntry(entries[i])
    ensures var bytes := SectionBytes(entries);
            ParseRecords(before + bytes + after, |before|, |entries|) ==
            Some((RecordsFrom(entries, |before|), |before| + |bytes|))
    ensures |RecordsFrom(entries, |before|)| == |entries|
    decreases |entries|
  {
    hide ParseRecord, EntryBytes, RecordAt, ProperEntry;
    if entries != [] {
      var front, last := entries[..|entries| - 1], entries[|entries| - 1];
      var head, tail := SectionBytes(front), EntryBytes(last);
      SectionRoundTrip(before, front, tail + after);
      RecordRoundTrip(before + head, last, after);
      hide ParseRecords;
      var data := before + (head + tail) + after;
      TwoParts(before, head, tail, after);
      ParsedOneMoreRecord(data, |before|, RecordsFrom(front, |before|), |before| + |head|,
                          RecordAt(last, |before| + |head|), |before| + |head| + |tail|);
    }
  }

  /** Data made of a header of twelve bytes, the questions and three sections, one after another. */
  ghost predicate LaidOut(data: Bytes, head: Bytes, q: Bytes, a: Bytes, n: Bytes, r: Bytes) {
    && |head| == 12
    && data == head + (q + a + n + r) && data == head + q + (a + n + r)
    && data == (head + q) + a + (n + r) && data == (head + q + a) + n + r
  }

  lemma PartsLaidOut(head: Bytes, q: Bytes, a: Bytes, n: Bytes, r: Bytes)
    requires |head| == 12
    ensures LaidOut(head + q + a + n + r, head, q, a, n, r)
  {
    var data := head + q + a + n + r;
    assert data == head + (q + a + n + r);
    assert data == head + q + (a + n + r);
    assert data == (head + q) + a + (n + r);
  }

  lemma HeaderAndQuestionsIn(data: Bytes, h: Header, questions: seq<Question>, q: Bytes, a: Bytes, n: Bytes, r: Bytes)
    requires forall i :: 0 <= i < |questions| ==> ProperName(questions[i].name)
    requires EncodedQuestions(questions) == Some(q) && LaidOut(data, EncodeHeader(h), q, a, n, r)
    ensures ParseHeader(data) == Some(h)
    ensures ParseQuestions(data, 12, |questions|) == Some((questions, 12 + |q|))
  {
    hide ParseHeader, EncodeHeader, ParseQuestions, EncodedQuestions, ProperName;
    HeaderRoundTrip(h, q + a + n + r);
    QuestionsRoundTrip(EncodeHeader(h), questions, a + n + r);
  }

  lemma AnswersIn(data: Bytes, head: Bytes, q: Bytes, answers: seq<Entry>, n: Bytes, r: Bytes, offset: nat)
    requires forall i :: 0 <= i < |answers| ==> ProperEntry(answers[i])
    requires LaidOut(data, head, q, SectionBytes(answers), n, r) && offset == 12 + |q|
    ensures ParseRecords(data, offset, |answers|) ==
            Some((RecordsFrom(answers, offset), offset + |SectionBytes(answers)|))
  {
    hide ParseRecords, RecordsFrom, SectionBytes, ProperEntry;
    SectionRoundTrip(head + q, answers, n + r);
  }

  lemma AuthoritiesIn(data: Bytes, head: Bytes, q: Bytes, a: Bytes, authorities: seq<Entry>, r: Bytes, offset: nat)
    requires forall i :: 0 <= i < |authorities| ==> ProperEntry(authorities[i])
    requires LaidOut(data, head, q, a, SectionBytes(authorities), r) && offset == 12 + |q| + |a|
    ensures ParseRecords(data, offset, |authorities|) ==
            Some((RecordsFrom(authorities, offset), offset + |SectionBytes(authorities)|))
  {
    hide ParseRecords, RecordsFrom, SectionBytes, ProperEntry;
    SectionRoundTrip(head + q + a, authorities, r);
  }

  lemma AdditionalIn(data: Bytes, head: Bytes, q: Bytes, a: Bytes, n: Bytes, additional: seq<Entry>, offset: nat)
    requires forall i :: 0 <= i < |additional| ==> ProperEntry(additional[i])
    requires LaidOut(data, head, q, a, n, SectionBytes(additional)) && offset == 12 + |q| + |a| + |n|
    ensures ParseRecords(data, offset, |additional|) ==
            Some((RecordsFrom(additional, offset), offset + |SectionBytes(additional)|))
  {
    hide ParseRecords, RecordsFrom, SectionBytes, ProperEntry;
    var before, r := head + q + a + n, SectionBytes(additional);
    assert data == before + r + [];
    SectionRoundTrip(before, additional, []);
  }

  /**
   A whole message: its header, its questions, and its sections in order; the authority records are
   read past, the answers and the additional records are kept apart.
   */
  lemma MessageRoundTrip(data: Bytes, h: Header, questions: seq<Question>, answers: seq<Entry>,
                         authorities: seq<Entry>, additional: seq<Entry>, q: Bytes, x: nat, z: nat)
    requires h.questions == |questions| && h.answers == |answers|
    requires h.authorities == |authorities| && h.additional == |additional|
    requires forall i :: 0 <= i < |questions| ==> ProperName(questions[i].name)
    requires forall i :: 0 <= i < |answers| ==> ProperEntry(answers[i])
    requires forall i :: 0 <= i < |authorities| ==> ProperEntry(authorities[i])
    requires forall i :: 0 <= i < |additional| ==> ProperEntry(additional[i])
    requires EncodedQuestions(questions) == Some(q)
    requires data == EncodeHeader(h) + q + SectionBytes(answers) + SectionBytes(authorities) + SectionBytes(additional)
    requires x == 12 + |q| && z == 12 + |q| + |SectionBytes(answers)| + |SectionBytes(authorities)|
    ensures Parsed(data) == Some(Packet(h, questions, RecordsFrom(answers, x), RecordsFrom(additional, z)))
  {
    hide *;
    var head, a, n, r := EncodeHeader(h), SectionBytes(answers), SectionBytes(authorities), SectionBytes(additional);
    PartsLaidOut(head, q, a, n, r);
    HeaderAndQuestionsIn(data, h, questions, q, a, n, r);
    var y := x + |a|;
    AnswersIn(data, head, q, answers, n, r, x);
    AuthoritiesIn(data, head, q, a, authorities, r, y);
    AdditionalIn(data, head, q, a, n, additional, z);
    ParsedFromParts(data, h, questions, x, RecordsFrom(answers, x), y, RecordsFrom(authorities, y), z,
                    RecordsFrom(additional, z), z + |r|);
  }

  lemma ParsedFromParts(data: Bytes, h: Header, questions: seq<Question>, q: nat, answers: seq<Record>, a: nat,
                        authorities: seq<Record>, n: nat, additional: seq<Record>, end: nat)
    requires ParseHeader(data) == Some(h)
    requires ParseQuestions(data, 12, h.questions) == Some((questions, q))
    requires ParseRecords(data, q, h.answers) == Some((answers, a))
    requires ParseRecords(data, a, h.authorities) == Some((authorities, n))
    requires ParseRecords(data, n, h.additional) == Some((additional, end))
    ensures Parsed(data) == Some(Packet(h, questions, answers, additional))
  {
    hide ParseHeader, ParseQuestions, ParseRecords;
  }
}
