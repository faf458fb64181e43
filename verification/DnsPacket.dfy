/** DNS messages: headers, questions, resource records, and the encoder of queries. */
module DnsPacket {
  import opened Sequences
  import opened Wire
  import opened DnsNames

  type Short = n: int | 0 <= n < 0x1_0000

  datatype Header = Header(id: Short, flags: Short, questions: Short, answers: Short,
                           authorities: Short, additional: Short)
  datatype Question = Question(name: Bytes, kind: Short, class_: Short)
  datatype Record = Record(name: Bytes, kind: Short, class_: Short, ttl: nat, data: Bytes, dataOffset: nat)
  datatype Packet = Packet(header: Header, questions: seq<Question>, answers: seq<Record>,
                           additional: seq<Record>)

  // ---- Fields ----

  function ShortAt(data: Bytes, offset: nat): Short
    requires offset + 2 <= |data|
  {
    var high: int, low: int := data[offset], data[offset + 1];
    high * 0x100 + low
  }

  function ShortBytes(n: Short): (b: Bytes)
    ensures |b| == 2
  {
    [n / 0x100, n % 0x100]
  }

  function ParseHeader(data: Bytes): Option<Header> {
    if |data| < 12 then None
    else Some(Header(ShortAt(data, 0), ShortAt(data, 2), ShortAt(data, 4), ShortAt(data, 6),
                     ShortAt(data, 8), ShortAt(data, 10)))
  }

  function EncodeHeader(h: Header): (b: Bytes)
    ensures |b| == 12
  {
    ShortBytes(h.id) + ShortBytes(h.flags) + ShortBytes(h.questions) + ShortBytes(h.answers)
    + ShortBytes(h.authorities) + ShortBytes(h.additional)
  }

  /** A question, and the offset after it. */
  function ParseQuestion(data: Bytes, offset: nat): (r: Option<(Question, nat)>)
    ensures r.Some? ==> offset + 5 <= r.value.1 <= |data|
  {
    var name := Decoded(data, offset);
    if name == None || name.value.1 + 4 > |data| then None
    else
      var next := name.value.1;
      Some((Question(name.value.0, ShortAt(data, next), ShortAt(data, next + 2)), next + 4))
  }

  function ParseRecord(data: Bytes, offset: nat): (r: Option<(Record, nat)>)
    ensures r.Some? ==> offset + 11 <= r.value.1 <= |data|
    ensures r.Some? ==> r.value.0.dataOffset + |r.value.0.data| == r.value.1
  {
    var name := Decoded(data, offset);
    if name == None || name.value.1 + 10 > |data| then None
    else
      var next := name.value.1;
      var length := ShortAt(data, next + 8);
      if next + 10 + length > |data| then None
      else
        var ttl := ShortAt(data, next + 4) * 0x1_0000 + ShortAt(data, next + 6);
        Some((Record(name.value.0, ShortAt(data, next), ShortAt(data, next + 2), ttl,
                     data[next + 10..next + 10 + length], next + 10), next + 10 + length))
  }

  /** `n` questions from `offset` on. */
  function ParseQuestions(data: Bytes, offset: nat, n: nat): (r: Option<(seq<Question>, nat)>)
    ensures r.Some? ==> |r.value.0| == n && offset + 5 * n <= r.value.1
    ensures r.Some? && n > 0 ==> r.value.1 <= |data|
  {
    if n == 0 then Some(([], offset))
    else
      var before := ParseQuestions(data, offset, n - 1);
      if before == None then None
      else
        var last := ParseQuestion(data, before.value.1);
        if last == None then None else Some((before.value.0 + [last.value.0], last.value.1))
  }

  function ParseRecords(data: Bytes, offset: nat, n: nat): (r: Option<(seq<Record>, nat)>)
    ensures r.Some? ==> |r.value.0| == n && offset + 11 * n <= r.value.1
    ensures r.Some? && n > 0 ==> r.value.1 <= |data|
  {
    if n == 0 then Some(([], offset))
    else
      var before := ParseRecords(data, offset, n - 1);
      if before == None then None
      else
        var last := ParseRecord(data, before.value.1);
        if last == None then None else Some((before.value.0 + [last.value.0], last.value.1))
  }

  /** The whole message; the authority records are read past and not kept. */
  function Parsed(data: Bytes): (r: Option<Packet>)
    ensures r.Some? ==> Some(r.value.header) == ParseHeader(data) && |data| >= 12
  {
    var h := ParseHeader(data);
    if h == None then None
    else
      var questions := ParseQuestions(data, 12, h.value.questions);
      if questions == None then None
      else
        var answers := ParseRecords(data, questions.value.1, h.value.answers);
        if answers == None then None
        else
          var authorities := ParseRecords(data, answers.value.1, h.value.authorities);
          if authorities == None then None
          else
            var additional := ParseRecords(data, authorities.value.1, h.value.additional);
            if additional == None then None
            else Some(Packet(h.value, questions.value.0, answers.value.0, additional.value.0))
  }

  // ---- The parser ----

  /** The names of `n` questions from `offset` on can be read to their ends, as far as one is reached. */
  ghost predicate QuestionsHalt(data: Bytes, offset: nat, n: nat) {
    forall i :: 0 <= i < n ==>
      var before := ParseQuestions(data, offset, i); before.Some? ==> Halts(data, before.value.1)
  }

  ghost predicate RecordsHalt(data: Bytes, offset: nat, n: nat) {
    forall i :: 0 <= i < n ==>
      var before := ParseRecords(data, offset, i); before.Some? ==> Halts(data, before.value.1)
  }

  /** No name that the parser reaches in this message leads it round for ever. */
  ghost predicate MessageHalts(data: Bytes) {
    var header := ParseHeader(data);
    header.Some? ==>
      var h := header.value;
      var questions := ParseQuestions(data, 12, h.questions);
      && QuestionsHalt(data, 12, h.questions)
      && (questions.Some? ==>
            var answers := ParseRecords(data, questions.value.1, h.answers);
            && RecordsHalt(data, questions.value.1, h.answers)
            && (answers.Some? ==>
                  var authorities := ParseRecords(data, answers.value.1, h.authorities);
                  && RecordsHalt(data, answers.value.1, h.authorities)
                  && (authorities.Some? ==> RecordsHalt(data, authorities.value.1, h.additional))))
  }

  method ParseQuestionAt(data: Bytes, offset: nat) returns (r: Option<(Question, nat)>)
    requires Halts(data, offset)
    ensures r == ParseQuestion(data, offset)
  {
    var name := DecodeDNSName(data, offset);
    if name == None || name.value.1 + 4 > |data| { return None; }
    var next := name.value.1;
    return Some((Question(name.value.0, ShortAt(data, next), ShortAt(data, next + 2)), next + 4));
  }

  method ParseRecordAt(data: Bytes, offset: nat) returns (r: Option<(Record, nat)>)
    requires Halts(data, offset)
    ensures r == ParseRecord(data, offset)
  {
    var name := DecodeDNSName(data, offset);
    if name == None || name.value.1 + 10 > |data| { return None; }
    var next := name.value.1;
    var length := ShortAt(data, next + 8);
    if next + 10 + length > |data| { return None; }
    var ttl := ShortAt(data, next + 4) * 0x1_0000 + ShortAt(data, next + 6);
    return Some((Record(name.value.0, ShortAt(data, next), ShortAt(data, next + 2), ttl,
                        data[next + 10..next + 10 + length], next + 10), next + 10 + length));
  }

  lemma {:induction false} FailedEarly(data: Bytes, offset: nat, n: nat, m: nat)
    requires n <= m
    ensures ParseQuestions(data, offset, n) == None ==> ParseQuestions(data, offset, m) == None
    ensures ParseRecords(data, offset, n) == None ==> ParseRecords(data, offset, m) == None
    decreases m
  {
    if n < m {
      FailedEarly(data, offset, n, m - 1);
    }
  }

  lemma ReadHalts(data: Bytes, offset: nat)
    requires ParseQuestion(data, offset).Some? || ParseRecord(data, offset).Some?
    ensures Halts(data, offset)
  {
    hide Walk;
    DecodedIff(data, offset);
  }

  lemma QuestionsParsedHalt(data: Bytes, offset: nat, n: nat)
    requires ParseQuestions(data, offset, n).Some?
    ensures QuestionsHalt(data, offset, n)
  {
    hide Halts, ParseQuestion;
    forall i | 0 <= i < n
      ensures var before := ParseQuestions(data, offset, i); before.Some? ==> Halts(data, before.value.1)
    {
      FailedEarly(data, offset, i + 1, n);
      var before := ParseQuestions(data, offset, i);
      if before.Some? { ReadHalts(data, before.value.1); }
    }
  }

  lemma RecordsParsedHalt(data: Bytes, offset: nat, n: nat)
    requires ParseRecords(data, offset, n).Some?
    ensures RecordsHalt(data, offset, n)
  {
    hide Halts, ParseRecord;
    forall i | 0 <= i < n
      ensures var before := ParseRecords(data, offset, i); before.Some? ==> Halts(data, before.value.1)
    {
      FailedEarly(data, offset, i + 1, n);
      var before := ParseRecords(data, offset, i);
      if before.Some? { ReadHalts(data, before.value.1); }
    }
  }

  /** The parser ends on every message that has a parse. */
  lemma ParsedHalts(data: Bytes)
    requires Parsed(data).Some?
    ensures MessageHalts(data)
  {
    hide ParseQuestions, ParseRecords, ParseHeader, QuestionsHalt, RecordsHalt;
    var h := ParseHeader(data).value;
    var questions := ParseQuestions(data, 12, h.questions).value;
    QuestionsParsedHalt(data, 12, h.questions);
    var answers := ParseRecords(data, questions.1, h.answers).value;
    RecordsParsedHalt(data, questions.1, h.answers);
    var authorities := ParseRecords(data, answers.1, h.authorities).value;
    RecordsParsedHalt(data, answers.1, h.authorities);
    RecordsParsedHalt(data, authorities.1, h.additional);
  }

  method ParseRecordSection(data: Bytes, start: nat, count: nat) returns (r: Option<(seq<Record>, nat)>)
    requires RecordsHalt(data, start, count)
    ensures r == ParseRecords(data, start, count)
  {
    var records: seq<Record>, offset := [], start;
    for i := 0 to count
      invariant ParseRecords(data, start, i) == Some((records, offset))
    {
      var next := ParseRecordAt(data, offset);
      if next == None {
        FailedEarly(data, start, i + 1, count);
        return None;
      }
      records, offset := records + [next.value.0], next.value.1;
    }
    return Some((records, offset));
  }

  method ParsePacket(data: Bytes) returns (r: Option<Packet>)
    requires MessageHalts(data)
    ensures r == Parsed(data)
  {
    var header := ParseHeader(data);
    if header == None { return None; }
    var questions: seq<Question>, offset: nat := [], 12;
    for i := 0 to header.value.questions
      invariant ParseQuestions(data, 12, i) == Some((questions, offset))
    {
      var next := ParseQuestionAt(data, offset);
      if next == None {
        FailedEarly(data, 12, i + 1, header.value.questions);
        return None;
      }
      questions, offset := questions + [next.value.0], next.value.1;
    }
    var answers := ParseRecordSection(data, offset, header.value.answers);
    if answers == None { return None; }
    var authorities := ParseRecordSection(data, answers.value.1, header.value.authorities);
    if authorities == None { return None; }
    var additional := ParseRecordSection(data, authorities.value.1, header.value.additional);
    if additional == None { return None; }
    return Some(Packet(header.value, questions, answers.value.0, additional.value.0));
  }

  /** A message that parses has room for everything its header announces. */
  lemma CountsFit(data: Bytes)
    requires Parsed(data).Some?
    ensures var h := Parsed(data).value.header;
            && 5 * h.questions + 11 * (h.answers + h.authorities + h.additional) <= |data| - 12
            && |Parsed(data).value.questions| == h.questions
            && |Parsed(data).value.answers| == h.answers
            && |Parsed(data).value.additional| == h.additional
  {
  }

  // ---- The encoder ----

  function LabelBytes(labels: seq<Bytes>): Bytes
    requires forall i :: 0 <= i < |labels| ==> |labels[i]| < 0x100
  {
    if labels == [] then [] else LabelBytes(labels[..|labels| - 1]) + [|labels[|labels| - 1]|] + labels[|labels| - 1]
  }

  function WithoutFinalDot(name: Bytes): Bytes {
    if name != [] && name[|name| - 1] == DOT then name[..|name| - 1] else name
  }

  /** None where the program panics: a label above 63 bytes. */
  function EncodedName(name: Bytes): Option<Bytes> {
    var trimmed := WithoutFinalDot(name);
    if trimmed == [] then Some([0])
    else
      var labels := Split(trimmed, DOT);
      if exists i :: 0 <= i < |labels| && |labels[i]| > 63 then None
      else Some(LabelBytes(labels) + [0])
  }

  method EncodeDNSName(name: Bytes) returns (r: Option<Bytes>)
    ensures r == EncodedName(name)
  {
    var trimmed := WithoutFinalDot(name);
    if trimmed == [] { return Some([0]); }
    var labels := Split(trimmed, DOT);
    var buffer: Bytes := [];
    for i := 0 to |labels|
      invariant forall j :: 0 <= j < i ==> |labels[j]| <= 63
      invariant buffer == LabelBytes(labels[..i])
    {
      if |labels[i]| > 63 { return None; }
      assert labels[..i + 1][..i] == labels[..i];
      buffer := buffer + [|labels[i]|];
      buffer := buffer + labels[i];
    }
    assert labels[..|labels|] == labels;
    buffer := buffer + [0];
    return Some(buffer);
  }

  function EncodedQuestion(q: Question): Option<Bytes> {
    var name := EncodedName(q.name);
    if name == None then None else Some(name.value + ShortBytes(q.kind) + ShortBytes(q.class_))
  }

  // ---- Round trips ----

  predicate ProperLabels(labels: seq<Bytes>) {
    forall i :: 0 <= i < |labels| ==> 1 <= |labels[i]| <= 63 && DOT !in labels[i]
  }

  /** A name is what the decoder returns: proper labels, each followed by a dot, or "." alone. */
  ghost predicate ProperName(name: Bytes) {
    exists labels :: ProperLabels(labels) && name == DottedName(labels)
  }

  lemma TrimmedDotted(labels: seq<Bytes>)
    ensures WithoutFinalDot(DottedName(labels)) == if labels == [] then [] else Join(labels, DOT)
  {
    hide Join;
    if labels != [] {
      var joined := Join(labels, DOT);
      assert (joined + [DOT])[..|joined|] == joined;
    }
  }

  /** Encoding a dotted name writes its labels one after another. */
  lemma EncodedDotted(labels: seq<Bytes>)
    requires ProperLabels(labels)
    ensures EncodedName(DottedName(labels)) == Some(LabelBytes(labels) + [0])
  {
    hide WithoutFinalDot, DottedName, Join, Split;
    TrimmedDotted(labels);
    if labels == [] {
      assert LabelBytes(labels) + [0] == [0];
    } else {
      hide LabelBytes;
      JoinNotEmpty(labels);
      SplitJoin(labels, DOT);
      assert !exists i :: 0 <= i < |labels| && |labels[i]| > 63;
    }
  }

  lemma JoinNotEmpty(labels: seq<Bytes>)
    requires ProperLabels(labels) && labels != []
    ensures Join(labels, DOT) != []
  {
    assert |labels[|labels| - 1]| >= 1;
  }

  /** The label bytes of `labels`, then a root, stand in `data` from `offset` on. */
  predicate NameStands(data: Bytes, offset: nat, labels: seq<Bytes>)
    requires ProperLabels(labels)
    decreases |labels|
  {
    if labels == [] then offset < |data| && data[offset] == 0
    else
      var n := |labels[0]|;
      && offset + 1 + n <= |data| && data[offset] == n && data[offset + 1..offset + 1 + n] == labels[0]
      && NameStands(data, offset + 1 + n, labels[1..])
  }

  function NameLength(labels: seq<Bytes>): nat {
    if labels == [] then 1 else 1 + |labels[0]| + NameLength(labels[1..])
  }

  lemma {:induction false} StandingNameIsRead(data: Bytes, offset: nat, labels: seq<Bytes>)
    requires ProperLabels(labels) && NameStands(data, offset, labels)
    ensures Walk(data, offset, |labels| + 1) == Labels(labels)
    ensures NameEnd(data, offset) == Some(offset + NameLength(labels))
    decreases |labels|
  {
    if labels != [] {
      var next := offset + 1 + |labels[0]|;
      assert ReadAt(data, offset) == Label(labels[0], next);
      StandingNameIsRead(data, next, labels[1..]);
      assert [labels[0]] + labels[1..] == labels;
    }
  }

  lemma StandingNameDecodes(data: Bytes, offset: nat, labels: seq<Bytes>)
    requires ProperLabels(labels) && NameStands(data, offset, labels)
    ensures Decoded(data, offset) == Some((DottedName(labels), offset + NameLength(labels)))
  {
    StandingNameIsRead(data, offset, labels);
    HaltsIff(data, offset);
    assert Halts(data, offset);
    SameReading(data, offset, |labels| + 1, |data| + 1);
  }

  lemma LabelBytesSnoc(front: seq<Bytes>, last: Bytes)
    requires |last| < 0x100 && forall i :: 0 <= i < |front| ==> |front[i]| < 0x100
    ensures LabelBytes(front + [last]) == LabelBytes(front) + ([|last|] + last)
  {
    assert (front + [last])[..|front|] == front;
  }

  lemma {:induction false} LabelBytesCons(first: Bytes, rest: seq<Bytes>)
    requires |first| < 0x100 && forall i :: 0 <= i < |rest| ==> |rest[i]| < 0x100
    ensures LabelBytes([first] + rest) == [|first|] + first + LabelBytes(rest)
    decreases |rest|
  {
    if rest == [] {
      LabelBytesSnoc([], first);
      assert [] + [first] == [first] + rest;
    } else {
      hide LabelBytes;
      var front, last := rest[..|rest| - 1], rest[|rest| - 1];
      LabelBytesCons(first, front);
      assert [first] + rest == ([first] + front) + [last];
      LabelBytesSnoc([first] + front, last);
      assert rest == front + [last];
      LabelBytesSnoc(front, last);
    }
  }

  /** A label written between other bytes. */
  lemma LabelInPlace(before: Bytes, first: Bytes, rest: Bytes, root: Bytes, after: Bytes)
    requires |first| < 0x100
    ensures var data := before + ([|first|] + first + rest + root) + after;
            && data == (before + ([|first|] + first)) + (rest + root) + after
            && |before| + 1 + |first| <= |data| && data[|before|] == |first|
            && data[|before| + 1..|before| + 1 + |first|] == first
  {
    var head: Bytes := [|first|] + first;
    var data := before + (head + rest + root) + after;
    assert data == (before + head) + (rest + root) + after;
    assert head[0] == |first| && head[1..] == first;
  }

  lemma {:induction false} EncodedNameStands(before: Bytes, labels: seq<Bytes>, after: Bytes)
    requires ProperLabels(labels)
    ensures NameStands(before + (LabelBytes(labels) + [0]) + after, |before|, labels)
    ensures NameLength(labels) == |LabelBytes(labels)| + 1
    decreases |labels|
  {
    if labels != [] {
      var first, rest := labels[0], labels[1..];
      assert labels == [first] + rest;
      LabelBytesCons(first, rest);
      hide LabelBytes;
      LabelInPlace(before, first, LabelBytes(rest), [0], after);
      EncodedNameStands(before + ([|first|] + first), rest, after);
    }
  }

  /** Decoding undoes encoding at any offset inside any surrounding bytes. */
  lemma NameRoundTrip(before: Bytes, labels: seq<Bytes>, after: Bytes)
    requires ProperLabels(labels)
    ensures EncodedName(DottedName(labels)).Some?
    ensures var encoded := EncodedName(DottedName(labels)).value;
            Decoded(before + encoded + after, |before|) == Some((DottedName(labels), |before| + |encoded|))
  {
    hide NameStands, LabelBytes, DottedName, Decoded, EncodedName;
    EncodedDotted(labels);
    EncodedNameStands(before, labels, after);
    StandingNameDecodes(before + (LabelBytes(labels) + [0]) + after, |before|, labels);
  }

  // ---- Compressed names ----

  /** The label bytes of `labels` stand from `offset` on. */
  predicate LabelsStand(data: Bytes, offset: nat, labels: seq<Bytes>)
    requires ProperLabels(labels)
    decreases |labels|
  {
    labels != [] ==>
      var n := |labels[0]|;
      && offset + 1 + n <= |data| && data[offset] == n && data[offset + 1..offset + 1 + n] == labels[0]
      && LabelsStand(data, offset + 1 + n, labels[1..])
  }

  lemma {:induction false} EncodedLabelsStand(before: Bytes, labels: seq<Bytes>, after: Bytes)
    requires ProperLabels(labels)
    ensures LabelsStand(before + (LabelBytes(labels) + []) + after, |before|, labels)
    decreases |labels|
  {
    hide LabelBytes, LabelsStand;
    var data := before + (LabelBytes(labels) + []) + after;
    if labels == [] {
      NoLabelsStand(data, |before|);
    } else {
      var first, rest := labels[0], labels[1..];
      assert labels == [first] + rest;
      LabelBytesCons(first, rest);
      LabelInPlace(before, first, LabelBytes(rest), [], after);
      EncodedLabelsStand(before + ([|first|] + first), rest, after);
      OneMoreStands(data, |before|, labels);
    }
  }

  lemma NoLabelsStand(data: Bytes, offset: nat)
    ensures LabelsStand(data, offset, [])
  {
  }

  lemma OneMoreStands(data: Bytes, offset: nat, labels: seq<Bytes>)
    requires ProperLabels(labels) && labels != []
    requires var n := |labels[0]|;
             && offset + 1 + n <= |data| && data[offset] == n && data[offset + 1..offset + 1 + n] == labels[0]
             && LabelsStand(data, offset + 1 + n, labels[1..])
    ensures LabelsStand(data, offset, labels)
  {
  }

  lemma LabelIsRead(data: Bytes, offset: nat, text: Bytes, next: nat, steps: nat)
    requires ReadAt(data, offset) == Label(text, next)
    ensures Walk(data, offset, steps + 1) == Prepended([text], Walk(data, next, steps))
    ensures NameEnd(data, offset) == NameEnd(data, next)
  {
    hide ReadAt;
  }

  lemma LabelStands(data: Bytes, offset: nat, labels: seq<Bytes>)
    requires ProperLabels(labels) && labels != [] && LabelsStand(data, offset, labels)
    ensures var next := offset + 1 + |labels[0]|;
            && ReadAt(data, offset) == Label(labels[0], next)
            && LabelsStand(data, next, labels[1..])
            && |LabelBytes(labels)| == 1 + |labels[0]| + |LabelBytes(labels[1..])|
  {
    assert labels == [labels[0]] + labels[1..];
    LabelBytesCons(labels[0], labels[1..]);
    hide LabelBytes;
  }

  /** Labels, then whatever the walk reads after them. */
  lemma {:induction false} LabelsAreRead(data: Bytes, offset: nat, labels: seq<Bytes>, steps: nat)
    requires ProperLabels(labels) && LabelsStand(data, offset, labels)
    ensures var end := offset + |LabelBytes(labels)|;
            && Walk(data, offset, |labels| + steps) == Prepended(labels, Walk(data, end, steps))
            && NameEnd(data, offset) == NameEnd(data, end)
    decreases |labels|
  {
    hide Walk, NameEnd, ReadAt, LabelsStand, Prepended;
    if labels == [] {
      PrependedEnds([], Walk(data, offset, steps));
    } else {
      hide LabelBytes;
      var first, rest, next := labels[0], labels[1..], offset + 1 + |labels[0]|;
      LabelStands(data, offset, labels);
      LabelsAreRead(data, next, rest, steps);
      LabelIsRead(data, offset, first, next, |rest| + steps);
      PrependedTwice([first], rest, Walk(data, offset + |LabelBytes(labels)|, steps));
      assert [first] + rest == labels;
    }
  }

  /** A pointer is two bytes: the top bits set, then the target, high part first. */
  lemma PointerIsRead(data: Bytes, offset: nat, p: nat)
    requires p <= 0x3FFF && offset + 2 <= |data|
    requires data[offset] == 0xC0 + p / 0x100 && data[offset + 1] == p % 0x100
    ensures ReadAt(data, offset) == Pointer(p)
  {
  }

  lemma CompressedNameIsRead(data: Bytes, offset: nat, head: seq<Bytes>, p: nat, tail: seq<Bytes>)
    requires ProperLabels(head) && ProperLabels(tail) && p <= 0x3FFF
    requires LabelsStand(data, offset, head) && NameStands(data, p, tail)
    requires var at := offset + |LabelBytes(head)|;
             at + 2 <= |data| && data[at] == 0xC0 + p / 0x100 && data[at + 1] == p % 0x100
    ensures Decoded(data, offset) == Some((DottedName(head + tail), offset + |LabelBytes(head)| + 2))
  {
    hide LabelBytes, NameStands, LabelsStand, DottedName;
    var at, steps := offset + |LabelBytes(head)|, |tail| + 2;
    PointerIsRead(data, at, p);
    StandingNameIsRead(data, p, tail);
    assert Walk(data, at, steps) == Labels(tail);
    LabelsAreRead(data, offset, head, steps);
    HaltsIff(data, offset);
    assert Halts(data, offset);
    SameReading(data, offset, |head| + steps, |data| + 1);
  }

  /**
   A compressed name in any surroundings: labels, then a pointer to where a name stands. Decoding
   gives the labels of both, and goes on after the two bytes of the pointer.
   */
  lemma CompressedRoundTrip(before: Bytes, head: seq<Bytes>, p: nat, tail: seq<Bytes>, after: Bytes)
    requires ProperLabels(head) && ProperLabels(tail) && p <= 0x3FFF
    requires NameStands(before + LabelBytes(head) + [0xC0 + p / 0x100, p % 0x100] + after, p, tail)
    ensures Decoded(before + LabelBytes(head) + [0xC0 + p / 0x100, p % 0x100] + after, |before|) ==
            Some((DottedName(head + tail), |before| + |LabelBytes(head)| + 2))
  {
    hide NameStands, Decoded, DottedName;
    var pointer: Bytes := [0xC0 + p / 0x100, p % 0x100];
    var data := before + LabelBytes(head) + pointer + after;
    EncodedLabelsStand(before, head, pointer + after);
    hide LabelBytes, LabelsStand;
    assert LabelBytes(head) + [] == LabelBytes(head);
    assert data == before + LabelBytes(head) + (pointer + after);
    CompressedNameIsRead(data, |before|, head, p, tail);
  }

  lemma SixParts(a: Bytes, b: Bytes, c: Bytes, d: Bytes, e: Bytes, f: Bytes)
    ensures (a + b + c) + d + e + f == a + b + (c + d + e + f)
  {
  }

  /** The name standing at the target may be one that the encoder wrote earlier in the message. */
  lemma CompressedAgainstEarlier(start: Bytes, tail: seq<Bytes>, between: Bytes, head: seq<Bytes>, after: Bytes)
    requires ProperLabels(head) && ProperLabels(tail) && |start| <= 0x3FFF
    ensures var before := start + (LabelBytes(tail) + [0]) + between;
            var data := before + LabelBytes(head) + [0xC0 + |start| / 0x100, |start| % 0x100] + after;
            Decoded(data, |before|) == Some((DottedName(head + tail), |before| + |LabelBytes(head)| + 2))
  {
    hide LabelBytes, NameStands, Decoded, DottedName, NameLength;
    var pointer: Bytes := [0xC0 + |start| / 0x100, |start| % 0x100];
    EncodedNameStands(start, tail, between + LabelBytes(head) + pointer + after);
    SixParts(start, LabelBytes(tail) + [0], between, LabelBytes(head), pointer, after);
    CompressedRoundTrip(start + (LabelBytes(tail) + [0]) + between, head, |start|, tail, after);
  }

  /** The root alone is a dot. */
  lemma RootIsDot()
    ensures Decoded([0], 0) == Some(([0x2E], 1)) && EncodedName([0x2E]) == Some([0])
  {
    assert Walk([0], 0, 2) == Labels([]);
  }

  lemma ShortReadsBack(before: Bytes, n: Short, after: Bytes)
    ensures ShortAt(before + ShortBytes(n) + after, |before|) == n
  {
  }

  lemma ThreeParts(before: Bytes, a: Bytes, b: Bytes, c: Bytes, after: Bytes)
    ensures before + (a + b + c) + after == before + a + (b + c + after)
    ensures before + (a + b + c) + after == (before + a) + b + (c + after)
    ensures before + (a + b + c) + after == (before + a + b) + c + after
  {
  }

  lemma QuestionRoundTrip(before: Bytes, q: Question, after: Bytes)
    requires ProperName(q.name)
    ensures EncodedQuestion(q).Some?
    ensures var encoded := EncodedQuestion(q).value;
            ParseQuestion(before + encoded + after, |before|) == Some((q, |before| + |encoded|))
  {
    hide Decoded, EncodedName, DottedName, ShortAt, ShortBytes, ProperLabels;
    var labels :| ProperLabels(labels) && q.name == DottedName(labels);
    var kind, class_ := ShortBytes(q.kind), ShortBytes(q.class_);
    NameRoundTrip(before, labels, kind + class_ + after);
    var name := EncodedName(q.name).value;
    ThreeParts(before, name, kind, class_, after);
    ShortReadsBack(before + name, q.kind, class_ + after);
    ShortReadsBack(before + name + kind, q.class_, after);
  }

  /** The encoded questions, one after another. */
  function EncodedQuestions(questions: seq<Question>): Option<Bytes> {
    if questions == [] then Some([])
    else
      var before := EncodedQuestions(questions[..|questions| - 1]);
      var last := EncodedQuestion(questions[|questions| - 1]);
      if before == None || last == None then None else Some(before.value + last.value)
  }

  lemma ParsedOneMore(data: Bytes, offset: nat, questions: seq<Question>, next: nat, last: Question, end: nat)
    requires ParseQuestions(data, offset, |questions|) == Some((questions, next))
    requires ParseQuestion(data, next) == Some((last, end))
    ensures ParseQuestions(data, offset, |questions| + 1) == Some((questions + [last], end))
  {
    hide ParseQuestion;
  }

  lemma EncodedOneMore(front: seq<Question>, last: Question)
    requires EncodedQuestions(front).Some? && EncodedQuestion(last).Some?
    ensures EncodedQuestions(front + [last]) == Some(EncodedQuestions(front).value + EncodedQuestion(last).value)
  {
    hide EncodedQuestion;
    assert (front + [last])[..|front|] == front;
  }

  lemma TwoParts(before: Bytes, a: Bytes, b: Bytes, after: Bytes)
    ensures before + (a + b) + after == before + a + (b + after)
    ensures before + (a + b) + after == (before + a) + b + after
  {
  }

  lemma OneMoreQuestion(before: Bytes, front: seq<Question>, head: Bytes, last: Question, tail: Bytes, after: Bytes)
    requires ProperName(last.name) && EncodedQuestion(last) == Some(tail)
    requires ParseQuestions(before + head + (tail + after), |before|, |front|) == Some((front, |before| + |head|))
    ensures ParseQuestions(before + (head + tail) + after, |before|, |front| + 1) ==
            Some((front + [last], |before| + |head + tail|))
  {
    hide EncodedQuestion, ParseQuestion, ParseQuestions, ProperName;
    var data := before + (head + tail) + after;
    TwoParts(before, head, tail, after);
    QuestionRoundTrip(before + head, last, after);
    ParsedOneMore(data, |before|, front, |before| + |head|, last, |before| + |head| + |tail|);
  }

  lemma NoQuestions(before: Bytes, after: Bytes)
    ensures EncodedQuestions([]) == Some([])
    ensures ParseQuestions(before + [] + after, |before|, 0) == Some(([], |before|))
  {
  }

  lemma {:induction false} QuestionsRoundTrip(before: Bytes, questions: seq<Question>, after: Bytes)
    requires forall i :: 0 <= i < |questions| ==> ProperName(questions[i].name)
    ensures EncodedQuestions(questions).Some?
    ensures var encoded := EncodedQuestions(questions).value;
            ParseQuestions(before + encoded + after, |before|, |questions|) ==
            Some((questions, |before| + |encoded|))
    decreases |questions|
  {
    hide EncodedQuestion, ParseQuestion, ProperName, EncodedQuestions, ParseQuestions;
    if questions == [] {
      NoQuestions(before, after);
    } else {
      var front, last := questions[..|questions| - 1], questions[|questions| - 1];
      assert questions == front + [last];
      QuestionRoundTrip([], last, []);
      var tail := EncodedQuestion(last).value;
      QuestionsRoundTrip(before, front, tail + after);
      EncodedOneMore(front, last);
      OneMoreQuestion(before, front, EncodedQuestions(front).value, last, tail, after);
    }
  }

  lemma HeaderRoundTrip(h: Header, after: Bytes)
    ensures ParseHeader(EncodeHeader(h) + after) == Some(h)
  {
  }

  /** Parsing a query gives back its header and exactly its questions. */
  lemma QueryRoundTrip(h: Header, questions: seq<Question>)
    requires h.questions == |questions| && h.answers == 0 && h.authorities == 0 && h.additional == 0
    requires forall i :: 0 <= i < |questions| ==> ProperName(questions[i].name)
    ensures EncodedQuestions(questions).Some?
    ensures Parsed(EncodeHeader(h) + EncodedQuestions(questions).value) == Some(Packet(h, questions, [], []))
  {
    QuestionsRoundTrip(EncodeHeader(h), questions, []);
    var encoded := EncodedQuestions(questions).value;
    HeaderRoundTrip(h, encoded);
    assert EncodeHeader(h) + encoded + [] == EncodeHeader(h) + encoded;
  }

  // ---- Known bytes ----

  /** The header of the discovery query, byte for byte. */
  lemma QueryHeaderBytes()
    ensures EncodeHeader(Header(0x1234, 0x0100, 1, 0, 0, 0)) == [0x12, 0x34, 0x01, 0x00, 0, 1, 0, 0, 0, 0, 0, 0]
  {
  }

  /** The six header fields, where section 4.1.1 of RFC 1035 has them. */
  lemma HeaderPlaces(h: Header)
    ensures var b := EncodeHeader(h);
            && b[0] as int * 0x100 + b[1] == h.id && b[2] as int * 0x100 + b[3] == h.flags
            && b[4] as int * 0x100 + b[5] == h.questions && b[6] as int * 0x100 + b[7] == h.answers
            && b[8] as int * 0x100 + b[9] == h.authorities && b[10] as int * 0x100 + b[11] == h.additional
  {
  }

  /** A question about a name of one label, byte for byte: length, text, root, type, class. */
  lemma QuestionBytes(text: Bytes, kind: Short, class_: Short)
    requires 1 <= |text| <= 63 && DOT !in text
    ensures EncodedQuestion(Question(text + [DOT], kind, class_)) ==
            Some([|text|] + text + [0] + [kind / 0x100, kind % 0x100] + [class_ / 0x100, class_ % 0x100])
  {
    OneLabel(text);
    EncodedDotted([text]);
    hide EncodedName, LabelBytes, DottedName;
  }

  lemma OneLabel(text: Bytes)
    requires 1 <= |text| <= 63 && DOT !in text
    ensures ProperLabels([text]) && DottedName([text]) == text + [DOT]
    ensures LabelBytes([text]) == [|text|] + text
  {
    assert [text][..0] == [];
    LabelBytesSnoc([], text);
    assert [] + [text] == [text];
  }
}
