/** The Cloudflare DNS screen: the create and remove payloads, and the two record tables. */
module DnsScreen {
  import opened Wrappers
  import opened Strings
  import opened Tables
  import Seqs

  /** The JSON bodies of the two POSTs, as string-keyed objects. */
  function CreatePayload(domain: string, ip: string): map<string, string> {
    map["domain" := domain, "ip" := ip]
  }

  function RemovePayload(recordId: string): map<string, string> {
    map["id" := recordId]
  }

  /** `Create Record` sends the two entered values under `domain` and `ip` and nothing else;
      `Remove Record` sends the entered id under `id` and nothing else. */
  lemma PayloadsSpec(domain: string, ip: string, recordId: string)
    ensures CreatePayload(domain, ip).Keys == {"domain", "ip"}
    ensures CreatePayload(domain, ip)["domain"] == domain && CreatePayload(domain, ip)["ip"] == ip
    ensures RemovePayload(recordId).Keys == {"id"} && RemovePayload(recordId)["id"] == recordId
  {
    assert "domain" != "ip" by { assert "domain"[0] != "ip"[0]; }
  }

  /** One fetched record; a key may be absent. */
  datatype DnsRecord = DnsRecord(id: Option<string>, name: Option<string>, content: Option<string>,
                                 ttl: Option<int>, comment: Option<string>)

  const TrainingSuffix := "student.infinigate-labs.com"

  predicate IsTrainingRecord(r: DnsRecord) {
    r.name.Some? && EndsWith(r.name.value, TrainingSuffix)
  }

  /** The records whose name ends with the training suffix, in order (`pywebio_dns.py:48`);
      `None` where a record without a name makes the suffix test raise. */
  function TrainingRecords(records: seq<DnsRecord>): (r: Option<seq<DnsRecord>>)
    ensures r.None? <==> exists i :: 0 <= i < |records| && records[i].name.None?
  {
    if exists i :: 0 <= i < |records| && records[i].name.None? then None
    else Some(Seqs.Filter(records, IsTrainingRecord))
  }

  /** The training filter keeps exactly the records whose name ends with the student suffix, in
      their original order, as often as they were fetched; filtering again changes nothing. */
  lemma TrainingRecordsSpec(records: seq<DnsRecord>)
    requires TrainingRecords(records).Some?
    ensures var t := TrainingRecords(records).value;
      && (forall r :: r in t <==> r in records && r.name.Some? && EndsWith(r.name.value, TrainingSuffix))
      && (forall r :: multiset(t)[r] == if IsTrainingRecord(r) then multiset(records)[r] else 0)
      && Seqs.IsSubseq(t, records)
      && TrainingRecords(t) == Some(t)
  {
    var t := Seqs.Filter(records, IsTrainingRecord);
    Seqs.FilterMembership(records, IsTrainingRecord);
    Seqs.FilterExact(records, IsTrainingRecord);
    Seqs.FilterIsSubseq(records, IsTrainingRecord);
    Seqs.FilterIdempotent(records, IsTrainingRecord);
    assert !exists i :: 0 <= i < |t| && t[i].name.None? by {
      forall i | 0 <= i < |t| ensures t[i].name.Some? {
        assert IsTrainingRecord(t[i]);
      }
    }
  }

  const RecordHeader: Row := Header(["ID", "Name", "Content", "TTL", "Comment"])

  /** A record's row (`pywebio_dns.py:34-40`): its id, name, content, ttl and comment, each possibly absent. */
  function RecordRow(r: DnsRecord): Row {
    [TextCell(r.id), TextCell(r.name), TextCell(r.content), NumberCell(r.ttl), TextCell(r.comment)]
  }

  /** The table loop shared by both listings: the header, then one row per record in order. */
  method RecordTable(records: seq<DnsRecord>) returns (t: Table)
    ensures |t| == |records| + 1 && t[0] == RecordHeader
    ensures t[1..] == Seqs.Map(records, RecordRow)
  {
    t := [RecordHeader];
    for i := 0 to |records|
      invariant |t| == i + 1 && t[0] == RecordHeader
      invariant forall k :: 0 <= k < i ==> t[k + 1] == RecordRow(records[k])
    {
      t := t + [RecordRow(records[i])];
    }
  }

  /** The `List Records` branch. */
  method ListRecords(fetched: Option<seq<DnsRecord>>) returns (screen: Screen)
    ensures fetched.None? ==> screen == ShowError("Failed to retrieve DNS records.")
    ensures fetched.Some? ==> (
      && screen.ShowTable?
      && |screen.table| == |fetched.value| + 1 && screen.table[0] == RecordHeader
      && screen.table[1..] == Seqs.Map(fetched.value, RecordRow))
  {
    if fetched.None? {
      return ShowError("Failed to retrieve DNS records.");
    }
    var t := RecordTable(fetched.value);
    return ShowTable(t);
  }

  /** The `List Training Records` branch. */
  method ListTrainingRecords(fetched: Option<seq<DnsRecord>>) returns (screen: Screen)
    ensures fetched.None? ==> screen == ShowError("Failed to retrieve DNS records.")
    ensures fetched.Some? ==> (screen.Raises? <==> TrainingRecords(fetched.value).None?)
    ensures fetched.Some? && TrainingRecords(fetched.value).Some? ==> (
      && screen.ShowTable?
      && |screen.table| == |TrainingRecords(fetched.value).value| + 1 && screen.table[0] == RecordHeader
      && screen.table[1..] == Seqs.Map(TrainingRecords(fetched.value).value, RecordRow))
  {
    if fetched.None? {
      return ShowError("Failed to retrieve DNS records.");
    }
    var training := TrainingRecords(fetched.value);
    if training.None? {
      return Raises;
    }
    var t := RecordTable(training.value);
    return ShowTable(t);
  }

  /** For the same fetched records, the rows of the training table are a subsequence of the rows
      of the full table. */
  lemma TrainingRowsSubseq(records: seq<DnsRecord>)
    requires TrainingRecords(records).Some?
    ensures Seqs.IsSubseq(Seqs.Map(TrainingRecords(records).value, RecordRow), Seqs.Map(records, RecordRow))
  {
    Seqs.FilterIsSubseq(records, IsTrainingRecord);
    Seqs.MapPreservesSubseq(TrainingRecords(records).value, records, RecordRow);
  }
}
