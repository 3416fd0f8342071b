# Training-lab automation: DHCP reservations and the screens' data shaping

This Dafny project models the part of the training-lab automation service that computes
instead of calling out:

- **`fortigate.py`** (module `Fortigate`). The dotted-quad codec `ip_to_int` / `int_to_ip`,
  modelled in Python's arbitrary-precision semantics (`bin(int(x) + 256)[3:]` per octet,
  `x >> k & 0xFF` with flooring shifts). The search for the first free address of an
  inclusive range. The three operations on the server's `reserved-address` list:
  - add a lease;
  - filter out by MAC;
  - find the first reservation whose description is the seat.

  The server configuration fetched by the GET is an input (`None` for a failed GET or an
  empty object). The list the PUT writes back is part of the result. Whether the PUT
  succeeded is a boolean input.
- **`pywebio_pve.py`** (module `PveScreen`):
  - the template / non-template split;
  - a stable sort by descending cpu;
  - the two tables;
  - the `"name (ID: n)"` template label and its parse;
  - the create and remove request loops.
- **`pywebio_trainings.py`** (module `TrainingsScreen`):
  - the selection parsed from the label;
  - the base name with `-Template` removed;
  - the seat list;
  - the two tags;
  - the clone / tag / start loop with its `current_step` counter and `continue` on a failed clone.
- **`pywebio_nginx.py`** (module `NginxScreen`): the `proxy_host` payload built from the
  create form, and the table of listed proxy hosts.
- **`pywebio_lldap.py`** (module `LldapScreen`):
  - the menu loop;
  - the `group_choices` map;
  - the `user_data` record;
  - the `fetch_groups` fallback;
  - the users table.
- **`pywebio_dns.py`** (module `DnsScreen`): the create and remove payloads, the training-record
  filter and the two record tables.

The shared modules are:
- `Wrappers`: an `Option` type.
- `Seqs`: filter, map and subsequence, with their lemmas.
- `Strings`: Python's `split`, `join`, `replace`, `strip`, `rstrip(")")`, `lower`,
  `endswith`, `int()` and `str()` on integers, with round-trip lemmas.
- `Tables`: table cells and what a screen ends up showing.

How the source is turned into Dafny:
- Every HTTP response a screen reads is an input: the decoded JSON, or `None` for a failed
  request. On the screens that test the status code, `None` is a non-200 answer. On the LLDAP
  screen it is any `RequestException`: an error status from `raise_for_status`, a failed
  connection, or a body that does not decode (pywebio_lldap.py:47-53).
- Every POST it sends is part of the result.
- An exception the source lets escape is an explicit outcome (`None`, `Raised`, or the screen
  `Raises`), except for the missing-key cases listed under "## Left out": there the model's
  records always carry the key.
- Loops and in-place list building are methods with loop invariants, each proved equal to a
  specification function.
- The properties live in lemmas about those functions.

The template label parse needs a stronger condition than "the name holds no `ID: `":
- A name *ending* in `ID:` already breaks it. The label puts a space after the name, so the
  name followed by that space holds `ID: `.
- `PveScreen.LabelRoundTrip` therefore assumes that `name + " "` holds no `ID: `.
- `PveScreen.LabelParseFailsAfterIdColon` shows a concrete failing case: the name `ID:` with
  vmid 5 parses to nothing.

## Model

| member | source | states |
|---|---|---|
| Fortigate.OctetBitsOfOctet | fortigate.py:101 | for an octet value, `bin(x + 256)[3:]` is exactly eight binary digits whose value is `x` |
| Fortigate.SplitQuad | fortigate.py:101 | splitting a canonical dotted quad at `.` gives back the four decimal octets |
| Fortigate.OctetsBitsOfQuad | fortigate.py:101 | the joined bit string of a canonical quad is the four octets' eight-bit pieces in order |
| Fortigate.QuadBitsValue | fortigate.py:101 | those 32 bits read in base 2 are the quad's 32-bit number |
| Fortigate.IpToIntOfQuad | fortigate.py:100-101 | `ip_to_int` of four decimal octets in 0..255 is `((a*256+b)*256+c)*256+d` |
| Fortigate.ByteAtOfQuadValue | fortigate.py:103-104 | the four shifted-and-masked bytes of a quad's number are its four octets |
| Fortigate.QuadRoundTrip | fortigate.py:100-104 | `int_to_ip(ip_to_int(s)) == s` for every canonical dotted quad `s` |
| Fortigate.Octet3OfLow32 | fortigate.py:104 | the top octet `int_to_ip` prints depends only on the low 32 bits of the number |
| Fortigate.Octet2OfLow32 | fortigate.py:104 | the same for the second octet |
| Fortigate.Octet1OfLow32 | fortigate.py:104 | the same for the third octet |
| Fortigate.Octet0OfLow32 | fortigate.py:104 | the same for the last octet |
| Fortigate.Decompose32 | fortigate.py:104 | a 32-bit number is the quad value of the four octets `int_to_ip` prints for it |
| Fortigate.IntToIpShape | fortigate.py:103-104 | every integer prints as four octets in 0..255 taken from its low 32 bits, and numbers equal mod 2^32 print alike |
| Fortigate.IntToIpFourOctets | fortigate.py:103-104 | `int_to_ip` always yields exactly four dot-separated pieces, each the decimal form of a value in 0..255 |
| Fortigate.IntToIpParts | fortigate.py:103-104 | the printed octets, as values, form the quad whose number is the low 32 bits |
| Fortigate.IpToInt | fortigate.py:100-101 | computes `ip_to_int` (`None` where it raises); its meaning on canonical quads is stated by `IpToIntOfQuad` and `QuadRoundTrip` |
| Fortigate.IntToIp | fortigate.py:103-104 | computes `int_to_ip`; its shape is stated by `IntToIpShape` and `IntToIpFourOctets`, its inverse by `IntRoundTrip` |
| Fortigate.IpToIntOfParts | fortigate.py:100-101 | a string equal to a canonical quad converts to that quad's number |
| Fortigate.IntRoundTrip | fortigate.py:100-104 | `ip_to_int(int_to_ip(n)) == n` for every `0 <= n < 2^32` |
| Fortigate.FirstFree | fortigate.py:94-97 | a found number lies in `[lo, hi]` and its dotted form is not reserved |
| Fortigate.FirstFreeSpec | fortigate.py:94-98 | the found number is in range and free, every lower number of the range is reserved, and there is none exactly when the whole range is reserved |
| Fortigate.NextAvailableIp | fortigate.py:91-98 | computes `find_next_available_ip`; what it returns is stated by `NextAvailableIpSpec`, and `FindNextAvailableIp` is the loop proved equal to it |
| Fortigate.ScanRange | fortigate.py:94-98 | the early-return loop returns the dotted form of the first free number, or nothing when the range is exhausted |
| Fortigate.FindNextAvailableIp | fortigate.py:91-98 | converting both bounds and scanning gives the search result, with a bound that `ip_to_int` rejects as the raising case |
| Fortigate.NextAvailableIpSpec | fortigate.py:91-98 | the error case happens exactly when a bound does not convert; a found address is in range, free, the lowest free one, and reads back as its own number when it fits in 32 bits; `Exhausted` happens exactly when every address of the range is reserved, an empty range included |
| Fortigate.AddReservation | fortigate.py:44-79 | no configuration or no `ip-range` returns `None` and writes nothing; it raises exactly when a bound of the first range is absent, or `ip_to_int` cannot convert it: a piece `int()` rejects, or no binary digits at all; an exhausted first range returns `None` and writes nothing; a free address in the first range is always written: the old list, unchanged and in order, plus one lease `{ip, mac, "reserved", seat}` whose ip is the lowest free address of that range and not already reserved; the caller gets the ip exactly when the PUT succeeds |
| Fortigate.KeepUnlisted | fortigate.py:115 | computes the kept reservations; `KeepUnlistedSpec` states which they are and `RemoveIdempotent` that filtering again keeps them all |
| Fortigate.RemoveReservations | fortigate.py:110-130 | no configuration removes nothing and writes nothing; otherwise the written list is the entries whose mac is not listed, and the count is old length minus new length when the PUT succeeds and 0 otherwise |
| Fortigate.KeepUnlistedSpec | fortigate.py:115-116 | the kept list holds no listed mac, keeps every other entry as often as before and in order, and the removed count is the number of entries with a listed mac |
| Fortigate.FirstIpFor | fortigate.py:139-146 | computes the address `validate_dhcp_by_name` returns; `FirstIpForSpec` states which one, and `ValidateDhcpByName` is the loop proved equal to it |
| Fortigate.RemoveIdempotent | fortigate.py:114-116 | removing the same macs again from the written list removes 0 and writes the same list |
| Fortigate.FirstIpForSpec | fortigate.py:139-146 | the result is absent exactly when no entry's description is the seat, and otherwise it is the ip of the first entry whose description is the seat |
| Fortigate.ValidateDhcpByName | fortigate.py:135-146 | the early-return loop returns `None` without a configuration, and otherwise the ip of the first matching reservation, or `None` |
| Fortigate.RemoveAfterAppend | fortigate.py:74-116 | filtering out the mac of an appended lease with a fresh mac gives back the old list, with count 1 |
| Fortigate.AddThenRemove | fortigate.py:68-127 | when the first range has both bounds and a free address, adding a lease for a mac no entry uses writes a list, and removing that mac from it writes back the original list |
| Fortigate.AddThenValidate | fortigate.py:68-143 | when the first range has both bounds and a free address, the add writes a list, and validating the seat on it finds the new address when no earlier entry carried the seat's name |
| PveScreen.Templates | pywebio_pve.py:35 | keeps the VMs whose name contains `-Template`; `TemplatePartition` states it with `NonTemplates` |
| PveScreen.NonTemplates | pywebio_pve.py:17 | keeps the VMs whose name does not contain `-Template`; `TemplatePartition` states it with `Templates` |
| PveScreen.TemplatePartition | pywebio_pve.py:17-35 | every fetched VM is in exactly one of the template and non-template lists, each keeps its order, and together they hold every VM as often as the response does |
| PveScreen.InsertByCpuPerm | pywebio_pve.py:19 | inserting adds exactly the inserted VM to the list's contents |
| PveScreen.InsertByCpuSorted | pywebio_pve.py:19 | inserting into a list sorted by descending cpu keeps it sorted |
| PveScreen.SortByCpu | pywebio_pve.py:19 | computes the stable descending sort by cpu; `SortByCpuSpec` and `SortByCpuStable` state it |
| PveScreen.SortByCpuSpec | pywebio_pve.py:19 | the sorted list is a permutation of its input, ordered non-increasing by `cpu`, where a missing `cpu` counts as 0 |
| PveScreen.InsertByCpuStable | pywebio_pve.py:19 | inserting keeps the order of the VMs with any one cpu value |
| PveScreen.SortByCpuStable | pywebio_pve.py:19 | the sort is stable: the VMs with equal cpu keep their input order |
| PveScreen.VmTable | pywebio_pve.py:21-25 | the table is the 5-column header then one row per VM in list order, and the loop raises exactly when some VM lacks `maxmem` or `cpu` |
| PveScreen.ListVms | pywebio_pve.py:12-28 | a failed fetch shows the error; a successful fetch always shows a table or raises: it raises exactly when one of the non-templates cannot be formatted, and otherwise the table lists the sorted non-templates one row each |
| PveScreen.ListedVmsSpec | pywebio_pve.py:17-19 | the listed VMs are a permutation of the non-templates, sorted by descending cpu, each a fetched non-template |
| PveScreen.TemplateTable | pywebio_pve.py:36-38 | the table is the 2-column header then one row per template in order |
| PveScreen.ListTemplates | pywebio_pve.py:30-41 | a failed fetch shows the error; otherwise a table with one row per template, in order |
| PveScreen.TemplateLabel | pywebio_pve.py:51 | builds a template's label from its name and vmid; `LabelRoundTrip` and `LabelParseFailsAfterIdColon` state when the parse gets the vmid back |
| PveScreen.ParseTemplateId | pywebio_pve.py:53 | reads the vmid back from a label (`None` where Python raises); its inverse is stated by `LabelRoundTrip` |
| PveScreen.LabelFindId | pywebio_pve.py:51-53 | the first `ID: ` of a label is the one the label writes, when `name + " "` holds none |
| PveScreen.LabelRoundTrip | pywebio_pve.py:51-53 | parsing `f"{name} (ID: {vmid})"` gives back `vmid` when `name + " "` holds no `ID: ` |
| PveScreen.TemplateLabelRoundTrip | pywebio_pve.py:51-53 | a fetched template's label parses to its own vmid |
| PveScreen.LabelParseFailsAfterIdColon | pywebio_pve.py:51-53 | a template named `ID:` with vmid 5 gets a label whose parse raises |
| PveScreen.ParseIdColonLabel | pywebio_pve.py:53 | `int("ID: (ID: 5)".split("ID: ")[1].rstrip(")"))` raises |
| PveScreen.FieldNamesDistinct | pywebio_pve.py:56-60 | distinct VM numbers get distinct `vm_name_{i}` fields |
| PveScreen.CreateVmRequests | pywebio_pve.py:59-64 | exactly `num_vms` create requests (none for a negative count); the i-th uses field `vm_name_{i}`, and all use the same template id |
| PveScreen.CreateVms | pywebio_pve.py:43-69 | a failed fetch sends nothing; an unparsable label raises; otherwise the create requests carry the parsed template id |
| PveScreen.CreateUsesSelectedTemplate | pywebio_pve.py:50-53 | ticking the k-th offered label yields the k-th template's vmid |
| PveScreen.RemoveVmRequests | pywebio_pve.py:79-80 | one remove request per selected name, in order |
| PveScreen.RemoveVms | pywebio_pve.py:72-85 | a failed fetch sends nothing; otherwise one request per selected name, each naming a fetched VM that is not a template |
| TrainingsScreen.ParseSelection | pywebio_trainings.py:22-23 | computes the selected vmid and base name; `SelectionOfLabel` states them for a template's label |
| TrainingsScreen.BaseName | pywebio_trainings.py:23 | computes the base name; `SelectionOfLabel` states that it is the template's name with every `-Template` removed |
| TrainingsScreen.LabelFindName | pywebio_trainings.py:22 | the first ` (ID:` of a label is the one after the name |
| TrainingsScreen.SplitLabelName | pywebio_trainings.py:22 | the part of a label before ` (ID:` is the template name |
| TrainingsScreen.SelectionOfLabel | pywebio_trainings.py:19-23 | selecting a template's label yields its vmid and its name with every `-Template` removed |
| TrainingsScreen.SeatName | pywebio_trainings.py:39 | builds a seat's name; `SeatNameParts` states its parts |
| TrainingsScreen.SeatNameParts | pywebio_trainings.py:39 | a seat name starts with the first name and ends with the base name, and its first two dash pieces are the two names when neither holds a dash |
| TrainingsScreen.SplitAfterFree | pywebio_trainings.py:39 | splitting `a + "-" + b` at dashes with no dash in `a` gives `a` and then the pieces of `b` |
| TrainingsScreen.BuildSeats | pywebio_trainings.py:32-45 | `num_seats` seats (none for a negative count), the i-th named `first-last-basename` from the i-th answer and carrying the selected template id |
| TrainingsScreen.Tags | pywebio_trainings.py:65-68 | exactly two tags, `start-` with the start date then `end-` with the end date |
| TrainingsScreen.Plan | pywebio_trainings.py:47-86 | computes the requests of all the seats in order; `PlanLength`, `PlanTagsThenStart` and `SeatStarted` state them, and `RunSeats` is the loop proved equal to it |
| TrainingsScreen.Steps | pywebio_trainings.py:47-86 | computes the counter's final value; `StepsBounds` states its bounds |
| TrainingsScreen.StepsBounds | pywebio_trainings.py:47-86 | the counter's final value lies between the number of seats and `total_steps`, and reaches `total_steps` exactly when every clone succeeds |
| TrainingsScreen.PlanLength | pywebio_trainings.py:47-86 | one request is sent per step shown |
| TrainingsScreen.PlanTagsThenStart | pywebio_trainings.py:64-82 | every tagging request carries the two seat tags and is directly followed by the start of the same VM |
| TrainingsScreen.SeatStarted | pywebio_trainings.py:50-82 | a cloned seat sends clone, tag and start; a failed clone sends the clone only |
| TrainingsScreen.RunSeat | pywebio_trainings.py:49-86 | one pass advances the counter by 3 after a successful clone and by 1 after a failed one, shows each step once, and reports the failures of that seat |
| TrainingsScreen.RunSeats | pywebio_trainings.py:47-86 | `total_steps` is `3 * len(seats)`; the requests and reported failures are the plan of all the seats; the shown steps count 1, 2, … and never exceed `total_steps` |
| NginxScreen.DomainList | pywebio_nginx.py:33 | computes the stripped comma-separated domains; `DomainListSpec` states them |
| NginxScreen.DomainListSpec | pywebio_nginx.py:33 | the domain list has one entry per comma plus one, each the matching segment stripped, with no edge whitespace and no comma |
| NginxScreen.SubstringFree | pywebio_nginx.py:33 | a slice of a string free of a pattern is free of it too |
| NginxScreen.Payload | pywebio_nginx.py:33-52 | builds the `proxy_host` payload; `PayloadSpec` and `PayloadIgnoresLocationAndIpv6` state it |
| NginxScreen.PayloadSpec | pywebio_nginx.py:33-52 | both ids map 0 to `None` and keep other values, each numeric flag is true exactly when it is nonzero, the texts and the port are copied, `meta` and `locations` are empty |
| NginxScreen.PayloadIgnoresLocationAndIpv6 | pywebio_nginx.py:30-52 | the collected `use_default_location` and `ipv6` do not affect the payload |
| NginxScreen.HostRow | pywebio_nginx.py:75 | builds a host's row; `HostTable` uses it and `DomainsRoundTrip` states that its domain text reads back as the domains |
| NginxScreen.HostTable | pywebio_nginx.py:73-75 | header then one row per host in order, domains joined by `", "` |
| NginxScreen.ListHosts | pywebio_nginx.py:70-78 | a failed fetch shows the error; otherwise the host table |
| NginxScreen.JoinCommaSpace | pywebio_nginx.py:75 | joining with `", "` is joining with `","` the domains with a space before every one but the first |
| NginxScreen.SpacedPiecesFree | pywebio_nginx.py:75 | those pieces hold no comma when the domains hold none |
| NginxScreen.StripCommaPieces | pywebio_nginx.py:33-75 | stripping each of those pieces gives back the domains when they have no edge whitespace |
| NginxScreen.StripCommaPiece | pywebio_nginx.py:33-75 | the same for one piece |
| NginxScreen.DomainsRoundTrip | pywebio_nginx.py:33-75 | reading a listed row's domain text back as the create form does gives back a non-empty domain list whose domains hold no comma and no edge whitespace |
| LldapScreen.ActedOn | pywebio_lldap.py:9-21 | computes the choices the menu acts on; `ActedOnSpec` states them and `Menu` is the loop proved equal to it |
| LldapScreen.ActedOnSpec | pywebio_lldap.py:9-21 | the menu acts on the choices before the first `Return to Main Menu`, none of which is that choice, and stops there |
| LldapScreen.Menu | pywebio_lldap.py:9-21 | the `while True` loop with `break` acts on exactly those choices |
| LldapScreen.FetchGroups | pywebio_lldap.py:58-65 | a failed request gives `[]`; otherwise the fetched groups |
| LldapScreen.GroupChoices | pywebio_lldap.py:31 | builds the `group_choices` map; `GroupChoicesKeys` and `GroupChoicesLastWins` state it |
| LldapScreen.GroupChoicesKeys | pywebio_lldap.py:31 | the selectable names are exactly the groups' display names |
| LldapScreen.GroupChoicesLastWins | pywebio_lldap.py:31 | a display name maps to the id of the last group carrying it |
| LldapScreen.CreateUserData | pywebio_lldap.py:36-43 | builds the `user_data` record; `CreateUserDataSpec` states it |
| LldapScreen.CreateUserDataSpec | pywebio_lldap.py:25-43 | a record is built exactly when the selected name is a group's; its id is the two names lower-cased around a dot, the email is that id at `@infinigate-labs.com`, the display name is `first last`, the names are kept, and the group id is that of the last group with the selected name |
| LldapScreen.NoGroupsNoUser | pywebio_lldap.py:30-65 | with a failed group fetch no record can be built |
| LldapScreen.UserIdLowerCase | pywebio_lldap.py:37 | the user id holds no upper-case ASCII letter and is one character longer than the two names |
| LldapScreen.UserRow | pywebio_lldap.py:78-84 | builds a user's row; `UserRowSpec` states its cells |
| LldapScreen.UserRowSpec | pywebio_lldap.py:78-84 | each of the five cells is the field when present and `N/A` when absent |
| LldapScreen.ListUsers | pywebio_lldap.py:67-87 | a failed request shows the error, an empty list shows `No users found` and no table, otherwise header plus one row per user |
| DnsScreen.CreatePayload | pywebio_dns.py:16 | builds the create payload; `PayloadsSpec` states it |
| DnsScreen.RemovePayload | pywebio_dns.py:23 | builds the remove payload; `PayloadsSpec` states it |
| DnsScreen.PayloadsSpec | pywebio_dns.py:14-23 | create sends `{domain, ip}` as entered and nothing else; remove sends `{id}` |
| DnsScreen.TrainingRecords | pywebio_dns.py:48 | the filter raises exactly when some record has no name |
| DnsScreen.TrainingRecordsSpec | pywebio_dns.py:48 | the filter keeps exactly the records whose name ends with `student.infinigate-labs.com`, as often as they were fetched, in order, and filtering again changes nothing |
| DnsScreen.RecordRow | pywebio_dns.py:34-40 | builds a record's row; `RecordTable` uses it for every record |
| DnsScreen.RecordTable | pywebio_dns.py:32-57 | the 5-column header then one row per record, in order |
| DnsScreen.ListRecords | pywebio_dns.py:28-42 | a failed fetch shows the error; otherwise one row per fetched record |
| DnsScreen.ListTrainingRecords | pywebio_dns.py:44-59 | a failed fetch shows the error; a nameless record raises; otherwise one row per training record |
| DnsScreen.TrainingRowsSubseq | pywebio_dns.py:32-57 | the training table's rows are a subsequence of the full table's rows |

## Left out

- HTTP traffic (`requests`, `raise_for_status`, status codes, JSON decoding) is not modelled. A response is an input, a request is an output. Exception texts appended to error messages (`str(e)`, `response.text`) are left out as well.
- `get_dhcp_server_config` (fortigate.py:30-38) is not modelled: its result is the `config` input. An empty configuration object counts as a missing one, as `if not dhcp_config` treats it.
- Logging and the environment variables are left out. They do not change any result.
- Fortigate.AddReservation: the in-place `append` to the fetched list is modelled as the new list value. Only the written list is observable.
- Fortigate.AddReservation: when a bound is absent, or `ip_to_int` cannot convert it (a dot-separated piece `int()` rejects, or no binary digits at all), the source raises, and the model only reports `Raised`. Malformed addresses such as `10.0.0.256` or `1.2.3` convert without raising, as in the source. Python's exception type is left out.
- Strings.ParseInt: Python's `int()` also accepts surrounding whitespace, a `+` sign, underscores and non-ASCII digits. The model accepts only an optional `-` followed by ASCII digits. Canonical octets, vmids and group ids are not affected.
- Strings.Lower and Strings.IsSpace cover only ASCII letters and ASCII whitespace. Python's Unicode rules are left out.
- `format_memory` and `format_cpu` (pywebio_pve.py:90-96) use floating-point formatting. The model leaves it out and keeps the number in a `Memory` or `CpuLoad` cell. Only their `TypeError` on a missing value is modelled.
- PveScreen.SortByCpu: the in-place `list.sort` is modelled as the sorted value. Python's `<` between mixed key types is left out, since `cpu` is a real number or absent.
- JSON `null` is not distinguished from an absent key. A present `name: null`, for instance, is treated like an absent name.
- UI rendering is left out. This covers `actions`, `input`, `checkbox`, `put_*`, `run_js`, `put_loading`, `clear` and the success texts (`VMs created successfully!`, `Proxy host created successfully!`, and so on). The choices and entered values are inputs instead.
- `time.sleep` (pywebio_trainings.py:61, 77, 86) is left out. It does not affect any value.
- Empty `NUMBER` input is left out. A form field of type `NUMBER` is an integer.
- `delete_lldap_user` (pywebio_lldap.py:89-97) and `Remove Proxy Host` (pywebio_nginx.py:60-68) are left out. Each sends one request with an entered value and computes nothing.
- NginxScreen.HostRow: a host missing one of the four keys raises `KeyError`. The model leaves that out: a `Host` always has all four.
- Reservations (module `Fortigate`): a reserved address without an `ip` key (fortigate.py:60, 143) or without a `mac` key (fortigate.py:115) raises `KeyError`. The model leaves that out: a `Reservation` always has both.
- LldapScreen.GroupChoices: a group without `displayName` or `id` raises `KeyError` (pywebio_lldap.py:31). The model leaves that out: a `Group` always has both.
- LldapScreen.FetchGroups: a successful response without a `groups` key raises `KeyError` (pywebio_lldap.py:62), which the `RequestException` handler does not catch. The model leaves that out: a fetched response always holds the group list.
- LldapScreen.ListUsers: a successful response without a `users` key raises `KeyError` (pywebio_lldap.py:71), which the `RequestException` handler does not catch. The model leaves that out: a fetched response always holds the user list.
- LldapScreen.ListUsers: the error text `Failed to retrieve users` is modelled without the appended exception message. A `users` value of JSON `null` (also "No users found") is not modelled.
- LldapScreen.CreateUserData: an empty group list makes `select` unanswerable. The model then builds no record.
- PveScreen.LabelRoundTrip: the property needs `name + " "` to hold no `ID: `, which is stronger than the name alone holding none. The reason is given above the table.
- `pve.py`, `cf.py`, `lldap.py`, `guacamole.py`, `authentik.py`, `nginx_proxy_manager.py`, `main.py`, `pywebio_app.py`, `template_connections.py` and `pywebio_guacamole.py` are not part of this model. They are SDK wrappers, routing, static data or concurrency.
