/** The Proxmox screen: listing VMs and templates, and creating or removing VMs through the
    back end. The fetched `list-vms` JSON is an input; the POSTs are returned as requests. */
module PveScreen {
  import opened Wrappers
  import opened Strings
  import opened Tables
  import Seqs

  /** One entry of the `list-vms` response; a key may be absent. */
  datatype Vm = Vm(vmid: Option<int>, name: Option<string>, status: Option<string>,
                   maxmem: Option<int>, cpu: Option<real>)

  const TemplateMarker := "-Template"

  /** A VM is a template when its name, or the empty name when it has none, contains `-Template`
      (`pywebio_pve.py:35`). */
  predicate IsTemplate(vm: Vm) {
    Contains(vm.name.GetOr(""), TemplateMarker)
  }

  predicate IsNotTemplate(vm: Vm) {
    !IsTemplate(vm)
  }

  function Templates(vms: seq<Vm>): seq<Vm> {
    Seqs.Filter(vms, IsTemplate)
  }

  function NonTemplates(vms: seq<Vm>): seq<Vm> {
    Seqs.Filter(vms, IsNotTemplate)
  }

  /** Every fetched VM lands in exactly one of the two lists, in its original order, and
      the lists together hold every VM exactly as often as the response does. */
  lemma TemplatePartition(vms: seq<Vm>)
    ensures forall v :: v in Templates(vms) <==> v in vms && IsTemplate(v)
    ensures forall v :: v in NonTemplates(vms) <==> v in vms && !IsTemplate(v)
    ensures multiset(Templates(vms)) + multiset(NonTemplates(vms)) == multiset(vms)
    ensures Seqs.IsSubseq(Templates(vms), vms) && Seqs.IsSubseq(NonTemplates(vms), vms)
  {
    Seqs.FilterMembership(vms, IsTemplate);
    Seqs.FilterMembership(vms, IsNotTemplate);
    Seqs.FilterPartition(vms, IsTemplate, IsNotTemplate);
    Seqs.FilterIsSubseq(vms, IsTemplate);
    Seqs.FilterIsSubseq(vms, IsNotTemplate);
  }

  // ================================================================ the cpu sort

  /** The sort key (`pywebio_pve.py:19`): the VM's cpu, or 0 when it has none. */
  function CpuKey(vm: Vm): real {
    vm.cpu.GetOr(0.0)
  }

  predicate SortedByCpuDesc(s: seq<Vm>) {
    forall i, j :: 0 <= i < j < |s| ==> CpuKey(s[i]) >= CpuKey(s[j])
  }

  /** Puts `vm` before the first element whose key is not larger than its own. */
  function InsertByCpu(vm: Vm, s: seq<Vm>): seq<Vm> {
    if s == [] || CpuKey(s[0]) <= CpuKey(vm) then [vm] + s
    else [s[0]] + InsertByCpu(vm, s[1..])
  }

  /** The VMs ordered by descending cpu key (`pywebio_pve.py:19`): Python's sort is stable, also
      in reverse, so VMs with equal keys keep their order. The in-place reordering is
      modelled by the sorted value. */
  function SortByCpu(vms: seq<Vm>): seq<Vm> {
    if vms == [] then [] else InsertByCpu(vms[0], SortByCpu(vms[1..]))
  }

  lemma {:induction false} InsertByCpuPerm(vm: Vm, s: seq<Vm>)
    ensures multiset(InsertByCpu(vm, s)) == multiset(s) + multiset{vm}
    ensures |InsertByCpu(vm, s)| == |s| + 1
  {
    if !(s == [] || CpuKey(s[0]) <= CpuKey(vm)) {
      InsertByCpuPerm(vm, s[1..]);
      assert s == [s[0]] + s[1..];
    }
  }

  lemma {:induction false} InsertByCpuSorted(vm: Vm, s: seq<Vm>)
    requires SortedByCpuDesc(s)
    ensures SortedByCpuDesc(InsertByCpu(vm, s))
  {
    if !(s == [] || CpuKey(s[0]) <= CpuKey(vm)) {
      var t := InsertByCpu(vm, s[1..]);
      InsertByCpuSorted(vm, s[1..]);
      InsertByCpuPerm(vm, s[1..]);
      forall j | 0 <= j < |t| ensures CpuKey(s[0]) >= CpuKey(t[j]) {
        assert t[j] in multiset(s[1..]) + multiset{vm};
        if t[j] != vm {
          assert t[j] in s[1..];
        }
      }
      assert InsertByCpu(vm, s) == [s[0]] + t;
    }
  }

  /** The sorted list is a permutation of its input, ordered non-increasing by cpu. */
  lemma {:induction false} SortByCpuSpec(vms: seq<Vm>)
    ensures SortedByCpuDesc(SortByCpu(vms))
    ensures multiset(SortByCpu(vms)) == multiset(vms)
    ensures |SortByCpu(vms)| == |vms|
  {
    if vms != [] {
      SortByCpuSpec(vms[1..]);
      InsertByCpuSorted(vms[0], SortByCpu(vms[1..]));
      InsertByCpuPerm(vms[0], SortByCpu(vms[1..]));
      assert vms == [vms[0]] + vms[1..];
    }
  }

  lemma {:induction false} InsertByCpuStable(vm: Vm, s: seq<Vm>, c: real)
    ensures Seqs.Filter(InsertByCpu(vm, s), (v: Vm) => CpuKey(v) == c) ==
      if CpuKey(vm) == c then [vm] + Seqs.Filter(s, (v: Vm) => CpuKey(v) == c)
      else Seqs.Filter(s, (v: Vm) => CpuKey(v) == c)
  {
    var p := (v: Vm) => CpuKey(v) == c;
    if s == [] || CpuKey(s[0]) <= CpuKey(vm) {
      assert ([vm] + s)[1..] == s;
    } else {
      InsertByCpuStable(vm, s[1..], c);
      assert ([s[0]] + InsertByCpu(vm, s[1..]))[1..] == InsertByCpu(vm, s[1..]);
    }
  }

  /** Stability: for every cpu value, the VMs with that value appear in the sorted list in the
      same order as in the input. */
  lemma {:induction false} SortByCpuStable(vms: seq<Vm>, c: real)
    ensures Seqs.Filter(SortByCpu(vms), (v: Vm) => CpuKey(v) == c) ==
            Seqs.Filter(vms, (v: Vm) => CpuKey(v) == c)
  {
    if vms != [] {
      SortByCpuStable(vms[1..], c);
      InsertByCpuStable(vms[0], SortByCpu(vms[1..]), c);
    }
  }

  // ================================================================ the two tables

  const VmHeader: Row := Header(["VMID", "Name", "Status", "Memory", "CPU"])

  /** `format_memory` and `format_cpu` raise `TypeError` on a missing value. */
  predicate Formattable(vm: Vm) {
    vm.maxmem.Some? && vm.cpu.Some?
  }

  /** A VM's row (`pywebio_pve.py:21-25`): vmid, name and status as fetched, then its memory and cpu
      load, which must be present to be formatted. */
  function VmRow(vm: Vm): Row
    requires Formattable(vm)
  {
    [NumberCell(vm.vmid), TextCell(vm.name), TextCell(vm.status), Memory(vm.maxmem.value), CpuLoad(vm.cpu.value)]
  }

  /** The `List VMs` table loop: the header, then one row per VM in list order; `None` when
      formatting a VM raises. */
  method VmTable(vms: seq<Vm>) returns (t: Option<Table>)
    ensures t.None? <==> exists i :: 0 <= i < |vms| && !Formattable(vms[i])
    ensures t.Some? ==> |t.value| == |vms| + 1 && t.value[0] == VmHeader
    ensures t.Some? ==> forall i :: 0 <= i < |vms| ==> Formattable(vms[i]) && t.value[i + 1] == VmRow(vms[i])
  {
    var table: Table := [VmHeader];
    var i := 0;
    while i < |vms|
      invariant 0 <= i <= |vms|
      invariant |table| == i + 1 && table[0] == VmHeader
      invariant forall k :: 0 <= k < i ==> Formattable(vms[k]) && table[k + 1] == VmRow(vms[k])
    {
      if !Formattable(vms[i]) {
        return None;
      }
      table := table + [VmRow(vms[i])];
      i := i + 1;
    }
    return Some(table);
  }

  /** The `List VMs` branch: filter out templates, sort by cpu, tabulate. */
  method ListVms(fetched: Option<seq<Vm>>) returns (screen: Screen)
    ensures fetched.None? ==> screen == ShowError("Failed to retrieve VMs.")
    ensures fetched.Some? ==>
      var listed := SortByCpu(NonTemplates(fetched.value));
      && (screen.Raises? <==> exists i :: 0 <= i < |listed| && !Formattable(listed[i]))
      && (screen.ShowTable? ==>
            |screen.table| == |listed| + 1 && screen.table[0] == VmHeader &&
            forall i :: 0 <= i < |listed| ==> Formattable(listed[i]) && screen.table[i + 1] == VmRow(listed[i]))
    ensures fetched.Some? ==> screen.ShowTable? || screen.Raises?
  {
    if fetched.None? {
      return ShowError("Failed to retrieve VMs.");
    }
    var vms := NonTemplates(fetched.value);
    vms := SortByCpu(vms);
    var t := VmTable(vms);
    if t.None? {
      screen := Raises;
      assert vms == SortByCpu(NonTemplates(fetched.value));
      assert exists k :: 0 <= k < |vms| && !Formattable(vms[k]);
      assert screen.Raises?;
      return;
    }
    return ShowTable(t.value);
  }

  /** Rows of the `List VMs` table come from non-templates only, ordered by cpu, one per non-template. */
  lemma ListedVmsSpec(vms: seq<Vm>)
    ensures var listed := SortByCpu(NonTemplates(vms));
      && multiset(listed) == multiset(NonTemplates(vms))
      && SortedByCpuDesc(listed)
      && forall i :: 0 <= i < |listed| ==> listed[i] in vms && !IsTemplate(listed[i])
  {
    var listed := SortByCpu(NonTemplates(vms));
    SortByCpuSpec(NonTemplates(vms));
    TemplatePartition(vms);
    forall i | 0 <= i < |listed| ensures listed[i] in vms && !IsTemplate(listed[i]) {
      assert listed[i] in multiset(NonTemplates(vms));
      assert listed[i] in NonTemplates(vms);
    }
  }

  const TemplateHeader: Row := Header(["VMID", "Name"])

  function TemplateRow(vm: Vm): Row {
    [NumberCell(vm.vmid), TextCell(vm.name)]
  }

  /** The `List Templates` table loop. */
  method TemplateTable(templates: seq<Vm>) returns (t: Table)
    ensures |t| == |templates| + 1 && t[0] == TemplateHeader
    ensures forall i :: 0 <= i < |templates| ==> t[i + 1] == TemplateRow(templates[i])
  {
    t := [TemplateHeader];
    for i := 0 to |templates|
      invariant |t| == i + 1 && t[0] == TemplateHeader
      invariant forall k :: 0 <= k < i ==> t[k + 1] == TemplateRow(templates[k])
    {
      t := t + [TemplateRow(templates[i])];
    }
  }

  /** The `List Templates` branch. */
  method ListTemplates(fetched: Option<seq<Vm>>) returns (screen: Screen)
    ensures fetched.None? ==> screen == ShowError("Failed to retrieve templates.")
    ensures fetched.Some? ==> (
      && screen.ShowTable?
      && |screen.table| == |Templates(fetched.value)| + 1 && screen.table[0] == TemplateHeader
      && forall i :: 0 <= i < |Templates(fetched.value)| ==>
           IsTemplate(Templates(fetched.value)[i]) && screen.table[i + 1] == TemplateRow(Templates(fetched.value)[i]))
  {
    if fetched.None? {
      return ShowError("Failed to retrieve templates.");
    }
    var t := TemplateTable(Templates(fetched.value));
    return ShowTable(t);
  }

  // ================================================================ template labels

  /** Python's f-string rendering of a possibly absent value. */
  function TextOrNone(o: Option<string>): string {
    match o
    case Some(s) => s
    case None => "None"
  }

  function IntOrNone(o: Option<int>): string {
    match o
    case Some(n) => IntToDecimal(n)
    case None => "None"
  }

  /** The label offered for a template (`pywebio_pve.py:51`): its name, then its vmid in
      parentheses after `ID: `; an absent value prints as `None`. */
  function TemplateLabel(vm: Vm): string {
    TextOrNone(vm.name) + " (ID: " + IntOrNone(vm.vmid) + ")"
  }

  function TemplateOptions(vms: seq<Vm>): seq<string> {
    Seqs.Map(Templates(vms), TemplateLabel)
  }

  /** The vmid read back from a label (`pywebio_pve.py:53`): the text between the first and the
      second `ID: `, or up to the end, with trailing parentheses dropped, as an integer; `None`
      where there is no `ID: ` (an `IndexError`) or the text is not an integer (a `ValueError`). */
  function ParseTemplateId(shown: string): Option<int> {
    var pieces := Split(shown, "ID: ");
    if |pieces| < 2 then None else ParseInt(RStripParen(pieces[1]))
  }

  /** In a label, the first `"ID: "` is the one the label itself writes, when the name followed by
      a space holds none. */
  lemma LabelFindId(name: string, id: string)
    requires !Contains(name + " ", "ID: ")
    ensures Find(name + " (ID: " + id, "ID: ") == |name| + 2
  {
    var l := name + " (ID: " + id;
    var k := |name| + 2;
    assert l[k..k + 4] == "ID: ";
    assert OccursAt(l, "ID: ", k);
    forall j | 0 <= j < k ensures !OccursAt(l, "ID: ", j) {
      if j + 4 <= |name| + 1 {
        assert l[j..j + 4] == (name + " ")[j..j + 4];
        assert !OccursAt(name + " ", "ID: ", j);
      } else {
        assert l[|name| + 1] == '(';
        assert j + 4 <= |l| ==> l[j..j + 4][|name| + 1 - j] == '(';
      }
    }
  }

  /** Parsing the label of a template recovers its vmid, provided the name, followed by the
      space the label puts after it, holds no `"ID: "` (a name ending in `"ID:"` is enough to
      break the parse). */
  lemma {:induction false} LabelRoundTrip(name: string, vmid: int)
    requires !Contains(name + " ", "ID: ")
    ensures ParseTemplateId(name + " (ID: " + IntToDecimal(vmid) + ")") == Some(vmid)
  {
    var d := IntToDecimal(vmid);
    var l := name + " (ID: " + d + ")";
    assert l == name + " (ID: " + (d + ")");
    LabelFindId(name, d + ")");
    var rest := l[|name| + 6..];
    assert rest == d + ")";
    NotContainsByFirstChar(rest, "ID: ");
    FindNone(rest, "ID: ");
    assert Split(l, "ID: ") == [l[..|name| + 2]] + [rest];
    RStripParenAfterDigit(d);
    ParseIntOfDecimal(vmid);
  }

  /** The same for a fetched template: its label parses to its own vmid. */
  lemma TemplateLabelRoundTrip(vm: Vm)
    requires vm.name.Some? && vm.vmid.Some?
    requires !Contains(vm.name.value + " ", "ID: ")
    ensures ParseTemplateId(TemplateLabel(vm)) == vm.vmid
  {
    LabelRoundTrip(vm.name.value, vm.vmid.value);
  }

  /** A VM named `"ID:"` with vmid 5 gets the label `"ID: (ID: 5)"`, whose second piece
      after splitting at `"ID: "` is `"("`, which `int` rejects. */
  lemma LabelParseFailsAfterIdColon()
    ensures ParseTemplateId(TemplateLabel(Vm(Some(5), Some("ID:"), None, None, None))) == None
  {
    assert IntToDecimal(5) == "5";
    assert TemplateLabel(Vm(Some(5), Some("ID:"), None, None, None)) == "ID: (ID: 5)";
    ParseIdColonLabel();
  }

  lemma ParseIdColonLabel()
    ensures ParseTemplateId("ID: (ID: 5)") == None
  {
    var l := "ID: (ID: 5)";
    assert OccursAt(l, "ID: ", 0);
    assert Find(l, "ID: ") == 0;
    var rest := l[4..];
    assert rest == "(ID: 5)";
    assert rest[0] == '(' && rest[1..5] == "ID: ";
    assert OccursAt(rest, "ID: ", 1) && !OccursAt(rest, "ID: ", 0);
    assert Find(rest, "ID: ") == 1;
    assert Split(l, "ID: ")[1] == "(";
    assert RStripParen("(") == "(";
  }

  // ================================================================ create and remove

  /** The POSTs the screen sends to the back end. */
  datatype Request = CreateTrainingSeat(name: string, templateId: int) | RemoveTrainingSeat(vmName: Option<string>)

  /** What the create and remove branches do. */
  datatype Flow = Sent(requests: seq<Request>) | FetchFailed | Raised

  /** The name of the `i`-th input field (`pywebio_pve.py:56-60`): `vm_name_` followed by `i`. */
  function FieldName(i: int): string {
    "vm_name_" + IntToDecimal(i)
  }

  /** Distinct VMs get distinct input fields. */
  lemma FieldNamesDistinct(i: int, j: int)
    requires FieldName(i) == FieldName(j)
    ensures i == j
  {
    assert FieldName(i)[8..] == IntToDecimal(i);
    assert FieldName(j)[8..] == IntToDecimal(j);
    DecimalInjective(i, j);
  }

  /** The `for i in range(num_vms)` loop of `Create VMs`: one request per VM, the i-th named by
      field `vm_name_{i}`, all with the same template id. */
  method CreateVmRequests(numVms: int, templateId: int, details: map<string, string>) returns (reqs: seq<Request>)
    requires forall i :: 0 <= i < numVms ==> FieldName(i) in details
    ensures |reqs| == if numVms < 0 then 0 else numVms
    ensures forall i :: 0 <= i < |reqs| ==> reqs[i] == CreateTrainingSeat(details[FieldName(i)], templateId)
  {
    reqs := [];
    var i := 0;
    while i < numVms
      invariant 0 <= i && (numVms >= 0 ==> i <= numVms) && (numVms < 0 ==> i == 0)
      invariant |reqs| == i
      invariant forall k :: 0 <= k < i ==> reqs[k] == CreateTrainingSeat(details[FieldName(k)], templateId)
    {
      reqs := reqs + [CreateTrainingSeat(details[FieldName(i)], templateId)];
      i := i + 1;
    }
  }

  /** The `Create VMs` branch, given the first ticked template label and the filled-in names. */
  method CreateVms(numVms: int, fetched: Option<seq<Vm>>, selected: string, details: map<string, string>)
    returns (flow: Flow)
    requires forall i :: 0 <= i < numVms ==> FieldName(i) in details
    ensures fetched.None? ==> flow == FetchFailed
    ensures fetched.Some? && ParseTemplateId(selected).None? ==> flow == Raised
    ensures fetched.Some? && ParseTemplateId(selected).Some? ==> (
      && flow.Sent?
      && |flow.requests| == (if numVms < 0 then 0 else numVms)
      && forall i :: 0 <= i < |flow.requests| ==>
           flow.requests[i] == CreateTrainingSeat(details[FieldName(i)], ParseTemplateId(selected).value))
  {
    if fetched.None? {
      return FetchFailed;
    }
    var id := ParseTemplateId(selected);
    if id.None? {
      return Raised;
    }
    var reqs := CreateVmRequests(numVms, id.value, details);
    return Sent(reqs);
  }

  /** Ticking the label of a fetched template sends every create request with that template's vmid. */
  lemma CreateUsesSelectedTemplate(vms: seq<Vm>, k: int)
    requires 0 <= k < |Templates(vms)|
    requires Templates(vms)[k].name.Some? && Templates(vms)[k].vmid.Some?
    requires !Contains(Templates(vms)[k].name.value + " ", "ID: ")
    ensures TemplateOptions(vms)[k] == TemplateLabel(Templates(vms)[k])
    ensures ParseTemplateId(TemplateOptions(vms)[k]) == Templates(vms)[k].vmid
  {
    TemplateLabelRoundTrip(Templates(vms)[k]);
  }

  /** The names `Remove VMs` offers (`pywebio_pve.py:77`): the name of each non-template, in order. */
  function RemoveOptions(vms: seq<Vm>): seq<Option<string>> {
    Seqs.Map(NonTemplates(vms), (vm: Vm) => vm.name)
  }

  /** The `for vm_name in selected_vms` loop: one remove request per selected name, in order. */
  method RemoveVmRequests(selected: seq<Option<string>>) returns (reqs: seq<Request>)
    ensures |reqs| == |selected|
    ensures forall i :: 0 <= i < |selected| ==> reqs[i] == RemoveTrainingSeat(selected[i])
  {
    reqs := [];
    for i := 0 to |selected|
      invariant |reqs| == i
      invariant forall k :: 0 <= k < i ==> reqs[k] == RemoveTrainingSeat(selected[k])
    {
      reqs := reqs + [RemoveTrainingSeat(selected[i])];
    }
  }

  /** The `Remove VMs` branch: every request names a fetched VM that is not a template. */
  method RemoveVms(fetched: Option<seq<Vm>>, selected: seq<Option<string>>) returns (flow: Flow)
    requires fetched.Some? ==> forall i :: 0 <= i < |selected| ==> selected[i] in RemoveOptions(fetched.value)
    ensures fetched.None? ==> flow == FetchFailed
    ensures fetched.Some? ==> flow.Sent? && |flow.requests| == |selected|
    ensures fetched.Some? ==> forall i :: 0 <= i < |flow.requests| ==>
      flow.requests[i] == RemoveTrainingSeat(selected[i]) &&
      exists vm :: vm in fetched.value && !IsTemplate(vm) && vm.name == selected[i]
  {
    if fetched.None? {
      return FetchFailed;
    }
    var vms := fetched.value;
    TemplatePartition(vms);
    var reqs := RemoveVmRequests(selected);
    forall i | 0 <= i < |reqs|
      ensures exists vm :: vm in vms && !IsTemplate(vm) && vm.name == selected[i]
    {
      assert selected[i] in RemoveOptions(vms);
      var j :| 0 <= j < |RemoveOptions(vms)| && RemoveOptions(vms)[j] == selected[i];
      var vm := NonTemplates(vms)[j];
      assert vm in NonTemplates(vms);
    }
    return Sent(reqs);
  }
}
