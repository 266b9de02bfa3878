# dcnm interface-change tooling, modelled in Dafny

This project models the decision logic of the DCNM interface-change tools:
the scripts that read interface records from a Cisco DCNM controller, decide
which ones to change (descriptions, CDP, vPC orphan-port settings), push the
changes, deploy them, verify the result, and roll back from a saved
snapshot. The repository ships the logic in two near-duplicate generations:
a flat one (`dcnm/interfaces/`) and a plugin-based one
(`dcnm/heirarchy/`). Both are modelled as written, each in its own modules,
with shared modules where the code is identical. The flat generation's vPC
repair script (`del_bad_vpcs.py`) and its CSV check are modelled too.

The model is functional. Records are immutable datatypes: switch, policy,
interface and interface-configuration unit. Python dictionaries whose
iteration order matters are `ODict` values, which pair a key sequence with
a map. Every call into the controller is an oracle parameter: the connection
layers get a `Net` that answers the n-th request of a run, and the
higher layers get functions from the request to the decoded reply. Python
exceptions are one `Error` datatype, and every operation that can raise
returns a `Result`. Set iteration order, which Python leaves unspecified, is
an explicit `order` argument that must list the set.

Modules and the source they follow:

- `Http`, `HierConnect`, `IfConnect`: the two connection layers
  (`DCNM_connect.py`, `dcnm_connect.py`). They cover status
  classification, the path check, dry-run short-circuiting, the request and
  re-logon loop, and the token lifecycle.
- `HierUtils`, `Patterns`: `DCNM_utils.py` and the flat `_check_patterns`.
- `HierFabric`, `HierSwitches`, `PolicyFilter`: the hierarchy inventory
  (`dcnm_fabric.py`, `dcnm_switches.py`).
- `SwitchStatus`: the switch-status query and the wait for a target
  status, which both generations implement with the same code.
- `IfSwitches`, `IfPolicies`, `IfInventory`: the flat inventory
  (`dcnm_interfaces.py`, `inventory.py`).
- `Units`, `Predicates`, `Runner`, `ChangeSet`: the change predicates and
  the engine that runs them over every interface.
- `Actions`, `Deploy`: push, deploy and verify (`dcnm_puts.py`,
  `dcnm_deploys.py`, both `interfaces_utilities.py`).
- `HierPlugins`: the plugin registry and engine (`plugin_utils.py`,
  `plugins.py`).
- `Cli`, `Files`, `DescTable`, `FlatChange`, `HierChange`: the two
  `change_interfaces.py` drivers.
- `CsvRows`, `VpcRepair`, `VpcParams`, `VpcTool`: `utils.py`'s CSV check
  and `del_bad_vpcs.py`.
- `Imports`: the flat generation's import of its exception classes
  (`dcnm_interfaces.py` from `DCNM_errors.py`).
- `Wrappers`, `Errors`, `Json`, `Records`, `Text`: shared vocabulary. This
  covers `Result`/`Option`, the exception classes and decoded JSON values.
  It also covers ordered dictionaries and the few Python string operations
  the code relies on, with Python's semantics.

## Model

| member | source | states |
|---|---|---|
| Http.ReturnInfo | dcnm/heirarchy/DCNM_connect.py:346-353 | the info dictionary has exactly the keys RETURN_CODE, METHOD, REQUEST_PATH, MESSAGE and DATA, each holding the matching argument |
| HierConnect.Initial | dcnm/heirarchy/DCNM_connect.py:45-79 | a new connection object is not authenticated and holds no token in either header map |
| HierConnect.VerifyResponse | dcnm/heirarchy/DCNM_connect.py:309-335 | a code in 200..299 returns the info with that code and never raises; 500 always raises DCNMAuthenticationError with method "POST"; Unauthorized is raised exactly for a 401 on an authenticated session whose auth check is not skipped; every other code raises DCNMConnectionError; every raised info carries the status code |
| HierConnect.TokenOf | dcnm/heirarchy/DCNM_connect.py:127-128 | reading `info["DATA"]["Dcnm-Token"]` succeeds exactly when DATA is a dictionary holding that key |
| HierConnect.LogonLoop | dcnm/heirarchy/DCNM_connect.py:89-107 | the attempt loop sends only logon POSTs, at most `retries` of them; only the first may skip the credential prompt; when every reply is 500 it makes every attempt |
| HierConnect.Logon | dcnm/heirarchy/DCNM_connect.py:81-129 | logon sends at most `retries` POSTs and prompts again after each 500; a non-positive retry count raises UnboundLocalError; success stores the same token in both header maps and sets auth, changing nothing else; failure leaves the session unchanged |
| HierConnect.LogonExhausted | dcnm/heirarchy/DCNM_connect.py:89-110 | when every reply is 500, logon makes exactly `retries` attempts and raises DCNMAuthenticationError |
| HierConnect.LogonLoopExhausted | dcnm/heirarchy/DCNM_connect.py:89-107 | the loop with only 500 replies uses up every remaining attempt and ends with the 500 response |
| HierConnect.ReLogon | dcnm/heirarchy/DCNM_connect.py:187-203 | re-logon sends only logon requests; it returns True only with auth set and one token in both maps; it never fails with auth left True; with no token held, the `del` raises KeyError before anything is sent |
| HierConnect.Logout | dcnm/heirarchy/DCNM_connect.py:131-164 | logout as written sends exactly one logout POST and always leaves auth False |
| HierConnect.LogoutFinally | dcnm/heirarchy/DCNM_connect.py:160-164 | the `finally` block clears auth, and raises KeyError when the body already deleted the token |
| HierConnect.LogoutAfterLogonRaises | dcnm/heirarchy/DCNM_connect.py:145-164 | an authenticated logout whose reply succeeds deletes the token twice, raises KeyError and leaves the text-header token in place (finding) |
| HierConnect.LogoutCorrected | dcnm/heirarchy/DCNM_connect.py:131-164 | with the cleanup done once, logout clears auth and both tokens, sends one POST, and succeeds exactly when the reply is 2xx |
| HierConnect.UrlCheckHandle | dcnm/heirarchy/DCNM_connect.py:32-40 | the URL-check table re-raises DCNMAuthenticationError and DCNMConnectionError unchanged and turns everything else into DCNMConnectionError |
| HierConnect.CheckUrlConnection | dcnm/heirarchy/DCNM_connect.py:166-185 | an unauthenticated session raises DCNMAuthenticationError and sends nothing; otherwise the first request is a HEAD of the URL; it never sends a call of its own; any failure is an authentication or connection error |
| HierConnect.ReProbe | dcnm/heirarchy/DCNM_connect.py:177-182 | after an Unauthorized probe it re-logs-on and probes the bare host again; any failure is an authentication or connection error and success leaves the session authenticated |
| HierConnect.SendHandle | dcnm/heirarchy/DCNM_connect.py:273-280 | a transport exception whose first argument is a dictionary with a truthy METHOD is returned as the result; any other raises DCNMConnectionError whose info carries that first argument as DATA, or the info gathered so far when the exception had no argument |
| HierConnect.CallLoop | dcnm/heirarchy/DCNM_connect.py:254-272 | the request loop sends at most one call per remaining round and never changes the dry-run flag |
| HierConnect.CountRound | dcnm/heirarchy/DCNM_connect.py:255-272 | one round adds exactly one request of the caller's own |
| HierConnect.SendRequest | dcnm/heirarchy/DCNM_connect.py:222-283 | an empty path raises IndexError and one not starting with `/` raises DCNMConnectionError, both before anything is sent; a dry-run POST, PUT or DELETE returns exactly `{"RETURN_CODE": 200}` without contact; otherwise an unauthenticated session raises DCNMAuthenticationError; at most two calls are sent |
| HierConnect.SuccessSentTwice | dcnm/heirarchy/DCNM_connect.py:251-272 | with the next three replies 2xx, a request is probed once and then sent twice, because the loop has no break after success; the result is the info of the second reply |
| HierConnect.SendAfterProbe | dcnm/heirarchy/DCNM_connect.py:251-255 | after a passing probe, the request is handed to the two-round loop unchanged |
| HierConnect.LoopTwice | dcnm/heirarchy/DCNM_connect.py:255-269 | two rounds answered with 2xx both run and send the request once each, and the second reply's info is returned |
| HierConnect.FirstFailureRaises | dcnm/heirarchy/DCNM_connect.py:255-277 | after a good probe, a first reply that is neither 2xx nor 401 raises the reply check's own error out of the request, after exactly one call |
| HierConnect.LaterFailureRaises | dcnm/heirarchy/DCNM_connect.py:255-269 | a 2xx first reply does not end the loop: a failing second reply raises, and the first reply's info is lost |
| HierConnect.ReLogonTypeErrorKept | dcnm/heirarchy/DCNM_connect.py:264-280 | a 401 whose re-logon answers 2xx with a non-object body raises DCNMConnectionError carrying the TypeError text of the failed token lookup |
| IfConnect.TableMsg | dcnm/interfaces/dcnm_connect.py:270-273 | a code no row of the errors table matches leaves the default message; when rows repeat a code, the last matching row wins |
| IfConnect.VerifyResponse | dcnm/interfaces/dcnm_connect.py:253-276 | a reply succeeds exactly when its status is 2xx, and then yields the standard info record; a 401 raises DCNMUnauthorizedError exactly when the session is authenticated and the auth check is not skipped; every other failure is a DCNMConnectionError; every raised info carries the five standard keys, the status and the verb; for a status of 400 or more, the message comes from the errors table or is `RETURN_CODE: <n>` |
| IfConnect.NoSpecial500 | dcnm/interfaces/dcnm_connect.py:261-276 | a 500 reply always raises a connection error when the auth check is on |
| IfConnect.TokenOf | dcnm/interfaces/dcnm_connect.py:114 | the token is found exactly when the reply data is an object holding `Dcnm-Token`, and it is that entry |
| IfConnect.LoginLoop | dcnm/interfaces/dcnm_connect.py:83-102 | the logon loop sends only logon POSTs and never changes the session; it sends at most one per remaining retry; only the first may use the given credentials and every later one prompts; a final 500 means every retry was spent |
| IfConnect.Login | dcnm/interfaces/dcnm_connect.py:73-115 | login sends at most `retries` logon POSTs; with a non-positive retry count nothing is sent and the handler's log line raises UnboundLocalError on `info`; otherwise a failure is DCNMAuthenticationError or a failed token lookup (KeyError or TypeError), and it leaves the session as it was; success marks the session authenticated and holds a token |
| IfConnect.Logout | dcnm/interfaces/dcnm_connect.py:117-142 | logout sends exactly one POST and always ends unauthenticated; it succeeds exactly when the reply is 2xx and an authenticated session held a token, which is then dropped; a failure raises DCNMConnectionError with the standard `/logout` info |
| IfConnect.ReProbe | dcnm/interfaces/dcnm_connect.py:150-156 | after a 401 the session logs on again and probes once more; it sends no API call, fails only with a connection or transport error, and success leaves the session authenticated |
| IfConnect.ProbeAgain | dcnm/interfaces/dcnm_connect.py:154-156 | the second probe sends exactly one HEAD of the URL and fails only with a connection or transport error |
| IfConnect.CheckUrlConnection | dcnm/interfaces/dcnm_connect.py:144-172 | an unauthenticated session raises DCNMConnectionError with the standard HEAD info and contacts nothing; the probe sends no API call; success leaves the session authenticated; only connection or transport errors come out |
| IfConnect.SendHandle | dcnm/interfaces/dcnm_connect.py:239-250 | an exception whose first argument is a dictionary with a truthy METHOD is returned as the result; an exception without arguments raises IndexError; every other one raises ConnectionError carrying `str()` of the original exception |
| IfConnect.CallLoop | dcnm/interfaces/dcnm_connect.py:219-237 | each remaining round sends the caller's request once and nothing is lost from the log; any status other than 401 ends the loop with that reply; after a 401, a re-login that raises stops the loop with the request handler's outcome for that exception |
| IfConnect.SendRequest | dcnm/interfaces/dcnm_connect.py:190-251 | an empty path raises IndexError and one not starting with `/` raises DCNMConnectionError, both before any contact; a dry-run POST, PUT or DELETE returns `{"RETURN_CODE": 200}` without contact; at most two calls are sent |
| IfConnect.FailureReturned | dcnm/interfaces/dcnm_connect.py:238-250 | a non-401 failure after a good probe is returned as the info record with its status, not raised, and only one call is sent |
| IfConnect.ReloginTypeErrorKept | dcnm/interfaces/dcnm_connect.py:228-250 | a 401 whose re-login answers 2xx with a non-object body raises ConnectionError carrying the TypeError text of the failed token lookup |
| HierUtils.AboveRange | dcnm/heirarchy/DCNM_utils.py:89 | a reply without `RETURN_CODE` raises KeyError; a numeric code is compared against 299 |
| HierUtils.CheckResponse | dcnm/heirarchy/DCNM_utils.py:88-93 | a reply is returned unchanged exactly when its code is at most 299; otherwise DCNMServerResponseError carries the reply; only a malformed code raises anything else |
| HierUtils.CheckActionResponse | dcnm/heirarchy/DCNM_utils.py:96-102 | the action succeeds exactly when the code is 200; only a missing code raises, and it raises KeyError |
| HierUtils.CreatedIsNotAction | dcnm/heirarchy/DCNM_utils.py:88-102 | a 201 reply passes the response check but fails the action check, so the two checks disagree on it |
| HierUtils.ErrorHandler | dcnm/heirarchy/DCNM_utils.py:20-35 | the decorator returns values and passes other exceptions through unchanged; a server-response error always leaves as an exception |
| HierUtils.ErrorHandlerReRaises | dcnm/heirarchy/DCNM_utils.py:26-34 | a server-response error whose `DATA` is a string, or a list whose first entry has a `message`, is re-raised unchanged |
| HierUtils.Item | dcnm/heirarchy/DCNM_utils.py:144-152 | subscripting a group tuple succeeds exactly for an index in range, negative indices counting from the end; a failure is IndexError; a string item yields one character |
| HierUtils.Picks | dcnm/heirarchy/DCNM_utils.py:143-152 | the picked groups follow the index list one for one, and the pick fails exactly when one subscript fails |
| HierUtils.DeriveKey | dcnm/heirarchy/DCNM_utils.py:140-149 | without key indices the key is the serial alone; with them it is the tuple of the picked groups followed by the serial |
| HierUtils.DeriveValue | dcnm/heirarchy/DCNM_utils.py:150-156 | with one value index the value is that group; with any other number of indices the code stores the index list itself, not the groups; no indices at all raises TypeError |
| HierUtils.DeriveValueCorrected | dcnm/heirarchy/DCNM_utils.py:119-121 | with other than one value index, the value is the tuple of the picked groups, one per index, as the docstring describes |
| HierUtils.DeriveValueOneIndex | dcnm/heirarchy/DCNM_utils.py:150-156 | with a single value index, the code as written and the corrected rule agree |
| HierUtils.DeriveValueStoresIndices | dcnm/heirarchy/DCNM_utils.py:156 | for findall groups `("Eth1/1", "uplink", "FDO1")` and value indices `[1, 2]`, the code stores `(1, 2)` where the groups `("uplink", "FDO1")` were meant |
| HierUtils.Table | dcnm/heirarchy/DCNM_utils.py:139-160 | the table holds exactly the derived key of every findall item, on top of what it started with |
| HierUtils.TableLast | dcnm/heirarchy/DCNM_utils.py:157-160 | the last findall item's value survives under its key |
| HierUtils.Infos | dcnm/heirarchy/DCNM_utils.py:133-164 | one info record per policy, in iteration order, each carrying its policy's id and a table keyed by that policy's matches |
| HierUtils.GetInfoFromPoliciesConfig | dcnm/heirarchy/DCNM_utils.py:105-167 | the result is None exactly when no switch lists a policy; otherwise it has one record per policy, in order, with the policy's id |
| HierUtils.GetInfoFromPoliciesConfigCorrected | dcnm/heirarchy/DCNM_utils.py:105-167 | the same shape as the code as written, with tuple values built from the matched groups |
| HierUtils.FlattenLength | dcnm/heirarchy/DCNM_utils.py:133-134 | the policies visited number the sum of every switch's policy count |
| HierUtils.GetInfoOneIndex | dcnm/heirarchy/DCNM_utils.py:105-167 | with a single value index, the extractor as written and the corrected one give the same result |
| Patterns.MatchOne | dcnm/heirarchy/DCNM_utils.py:189-200 | a list or tuple pattern always raises: TypeError from subscripting the compiled regex, or, when it is shorter than two, IndexError with the list or the tuple message according to its type |
| Patterns.CheckPatterns | dcnm/heirarchy/DCNM_utils.py:170-204 | a None subject never matches; a subject that is neither string nor dictionary raises DCNMParameterError; so does a pattern collection that is not a list or tuple |
| Patterns.FirstMatchStr | dcnm/heirarchy/DCNM_utils.py:188-193 | against a string, a list of regexes matches exactly when one of them is found in the string |
| Patterns.PairPatternRaises | dcnm/heirarchy/DCNM_utils.py:194-196 | a list starting with a `(key, regex)` pattern raises TypeError against any dictionary |
| Patterns.MatchOneCorrected | dcnm/heirarchy/DCNM_utils.py:180-181 | a `(key, regex)` pattern matches when the regex is found in the dictionary's value for the key, as the docstring describes; string patterns behave as written |
| Patterns.CheckPatternsCorrected | dcnm/heirarchy/DCNM_utils.py:170-204 | the corrected check keeps the None, subject-type and collection-type outcomes |
| Patterns.FirstMatchPairs | dcnm/heirarchy/DCNM_utils.py:180-181 | with the correction, `(key, regex)` patterns against a dictionary match exactly when some regex is found in its key's value |
| Patterns.CorrectedAgreesOnStr | dcnm/interfaces/dcnm_interfaces.py:1387-1421 | on lists of string patterns the corrected check and the code as written agree |
| Patterns.Wrapped | dcnm/heirarchy/dcnm_switches.py:337-342 | a single string filter becomes a one-element list; any other filter argument is left alone |
| Patterns.AsPatterns | dcnm/heirarchy/dcnm_switches.py:337-342 | a filter is handed over as a pattern list exactly when it is a list or tuple |
| HierFabric.StoreFabrics | dcnm/heirarchy/dcnm_fabric.py:80-81 | the cache afterwards knows exactly the names it knew plus every listed fabric name; fabrics not listed keep their cached record |
| HierFabric.StoreFabricsLastWins | dcnm/heirarchy/dcnm_fabric.py:80-81 | when a fabric name is listed more than once, the last listing is the one cached |
| HierFabric.GetFabricId | dcnm/heirarchy/dcnm_fabric.py:17-81 | a reply that passes the response check refreshes the cache with the listed fabrics; a code above 299 raises; the cache never loses a name |
| HierFabric.SwitchesBySerial | dcnm/heirarchy/dcnm_fabric.py:92-93 | every listed switch is found under its own serial number, and every entry is one of the listed switches |
| HierFabric.GetFabricSwitchesDetails | dcnm/heirarchy/dcnm_fabric.py:83-94 | on success the details are keyed by exactly the listed serial numbers, each holding its own switch; a good reply always succeeds |
| HierFabric.GetSwitchFabric | dcnm/heirarchy/dcnm_fabric.py:96-110 | the fabric name is returned exactly when the reply passes the response check and its message holds `fabricName` |
| HierSwitches.AddPolicies | dcnm/heirarchy/dcnm_switches.py:33-37 | a list is appended to the switch's policies, a single policy dictionary is appended as one, anything else changes nothing; nothing but the policies changes and the old policies stay as a prefix |
| HierSwitches.AddPoliciesTwice | dcnm/heirarchy/dcnm_switches.py:33-35 | adding two lists one after the other is the same as adding their concatenation |
| HierSwitches.ClearPolicies | dcnm/heirarchy/dcnm_switches.py:39-40 | clearing empties the policies and changes nothing else |
| HierSwitches.SavePolicies | dcnm/heirarchy/dcnm_switches.py:42-43 | saving copies the policies into the previous policies and changes nothing else |
| HierSwitches.SaveClearAdd | dcnm/heirarchy/dcnm_switches.py:33-43 | save, clear and add leaves exactly the new policies current and the old ones saved |
| HierSwitches.RoleOf | dcnm/heirarchy/dcnm_switches.py:113-115 | the role is `switchRole` when present, otherwise `role` |
| HierSwitches.Build | dcnm/heirarchy/dcnm_switches.py:112-119 | a new switch has its serial and role, no vPC peer and no policies; its fabric is the record's own, or else the one the controller reports |
| HierSwitches.FabricsFoundAll | dcnm/heirarchy/dcnm_switches.py:116-119 | the factory's fabric lookups all succeed exactly when each record's lookup succeeds |
| HierSwitches.SwitchFactory | dcnm/heirarchy/dcnm_switches.py:111-119 | the factory succeeds exactly when every fabric lookup does; the inventory then holds the old serials plus every listed serial |
| HierSwitches.SwitchFactoryKeeps | dcnm/heirarchy/dcnm_switches.py:111-119 | a switch whose serial no record lists keeps its old entry |
| HierSwitches.FactoryMapAgrees | dcnm/heirarchy/dcnm_switches.py:116-119 | the factory fails exactly when the plain map fold of the records fails, and otherwise builds the same map |
| HierSwitches.FactoryMapLastWins | dcnm/heirarchy/dcnm_switches.py:116-119 | in the map fold, a serial's fabric lookup succeeded and its entry is the switch built from its last record |
| HierSwitches.SwitchFactoryLastWins | dcnm/heirarchy/dcnm_switches.py:116-119 | a serial listed more than once holds the switch built from its last listing |
| HierSwitches.RoleFilter | dcnm/heirarchy/dcnm_switches.py:148-158 | a serial is kept exactly when its switch's leaf role matches the wanted one, and only listed serials are kept |
| HierSwitches.AllLeaf | dcnm/heirarchy/dcnm_switches.py:148-152 | a non-empty cache is returned as it is; otherwise the cache is rebuilt with exactly the inventory's leaf switches |
| HierSwitches.AllNotLeaf | dcnm/heirarchy/dcnm_switches.py:154-158 | a non-empty cache is returned as it is; otherwise the cache is rebuilt with exactly the inventory's other switches |
| HierSwitches.LeafPartition | dcnm/heirarchy/dcnm_switches.py:148-158 | freshly computed, the leaf and not-leaf lists split the inventory: each switch is in exactly one, and both hold only inventory serials |
| HierSwitches.GetAllSwitches | dcnm/heirarchy/dcnm_switches.py:83-109 | a new query clears every cache and flag, then holds exactly the listed serials; a failing reply raises |
| HierSwitches.DetermineParameters | dcnm/heirarchy/dcnm_switches.py:404-414 | a given list is joined with commas and a single serial is passed through; otherwise, with no cached role lists, the query fails exactly when the inventory is empty, and raises DCNMSwitchesPoliciesParameterError; without serials the query names every switch |
| HierSwitches.DetermineParametersAll | dcnm/heirarchy/dcnm_switches.py:413 | the joined serial parameter splits back into the inventory's serials, in order |
| HierSwitches.Verdict | dcnm/heirarchy/dcnm_switches.py:371-386 | without filters every policy is kept; with them, the filters' verdict decides; a parameter error never leaves as itself |
| HierSwitches.FabricKeeps | dcnm/heirarchy/dcnm_switches.py:366-369 | a serial's policies are dropped exactly when its switch is known and sits in another fabric |
| HierSwitches.ResetAsWritten | dcnm/heirarchy/dcnm_switches.py:328-335 | a repeat query on a non-empty inventory always raises, because the loop calls methods on the serial strings; otherwise nothing changes |
| HierSwitches.ResetCorrected | dcnm/heirarchy/dcnm_switches.py:328-335 | on a repeat query every switch's policies are cleared, saved first when asked; a first query changes nothing |
| HierSwitches.SecondQueryRaises | dcnm/heirarchy/dcnm_switches.py:328-335 | on every inventory that has policies and switches, the reset as written raises and the corrected one succeeds |
| HierSwitches.ClearHeld | dcnm/heirarchy/dcnm_switches.py:347-352 | each switch that holds policies has them cleared, saved first when asked; nothing else changes |
| HierSwitches.Attach | dcnm/heirarchy/dcnm_switches.py:390-396 | attaching succeeds exactly when every grouped serial is in the inventory; grouped switches get their policies appended and the others are untouched |
| HierSwitches.AttachCleared | dcnm/heirarchy/dcnm_switches.py:390-396 | on cleared switches, each switch ends with exactly its group's policies |
| HierSwitches.AttachOk | dcnm/heirarchy/dcnm_switches.py:396 | attaching fails exactly when some grouped serial is unknown, which raises KeyError |
| HierSwitches.AttachGroups | dcnm/heirarchy/dcnm_switches.py:389-398 | every switch ends with its group's policies or none, and the policies flag is set |
| HierSwitches.PoliciesSteps | dcnm/heirarchy/dcnm_switches.py:337-398 | after the query, each switch holds exactly the reply's policies for its serial that pass the fabric test and the filters, and nothing else |
| HierSwitches.PoliciesAfterReset | dcnm/heirarchy/dcnm_switches.py:337-398 | the same selection, from the state after the reset |
| HierSwitches.GetSwitchesPolicies | dcnm/heirarchy/dcnm_switches.py:189-398 | as written, a second query on a non-empty inventory always raises; a success sets the policies flag and keeps the serial order |
| HierSwitches.GetSwitchesPoliciesCorrected | dcnm/heirarchy/dcnm_switches.py:189-398 | with the corrected reset, each switch holds exactly the selected policies |
| HierSwitches.GetSwitchesVpcPairs | dcnm/heirarchy/dcnm_switches.py:429-442 | an empty inventory raises DCNMSwitchesSwitchesParameterError; otherwise the switches are unchanged and the vPC flag is set |
| HierSwitches.VpcPairsKeepPeers | dcnm/heirarchy/dcnm_switches.py:433-441 | no switch's peer changes, because every switch already has a `peerSerialNumber` attribute and no query is sent |
| HierSwitches.StatusSerials | dcnm/heirarchy/dcnm_switches.py:493-506 | given serials are used as they are, a single one as a one-element list; otherwise every inventory serial is used, and an empty inventory raises DCNMSwitchStatusParameterError |
| HierSwitches.FabricOf | dcnm/heirarchy/dcnm_switches.py:508 | a serial's fabric is found exactly when the serial is in the inventory; otherwise KeyError |
| HierSwitches.GetSwitchesStatus | dcnm/heirarchy/dcnm_switches.py:489-533 | statuses are reported only for requested serials; every poll succeeded and at least one fabric answered; there is at most one poll per serial |
| PolicyFilter.Group | dcnm/heirarchy/dcnm_switches.py:361-363 | grouping by serial loses no policy and invents none: every policy sits in its own serial's group, and every group is non-empty and holds only that serial's policies |
| PolicyFilter.Keep | dcnm/heirarchy/dcnm_switches.py:374-380 | a group keeps exactly its policies the filters accept; the first filter exception is the one raised |
| PolicyFilter.FilterOne | dcnm/heirarchy/dcnm_switches.py:366-392 | one serial's turn keeps every earlier group as it was; the serial is kept only when its fabric passes, holding only accepted policies of its own, and holds every accepted policy when its fabric passes |
| PolicyFilter.FilterGroups | dcnm/heirarchy/dcnm_switches.py:366-392 | a serial survives only if its fabric test passes and some policy of it is accepted; surviving groups hold only accepted policies of their own group; every accepted policy of a passing serial survives |
| PolicyFilter.Select | dcnm/heirarchy/dcnm_switches.py:361-392 | the selection holds exactly the reply's policies whose serial passes the fabric test and which the filters accept, grouped by serial, with no empty group |
| SwitchStatus.Visit | dcnm/heirarchy/dcnm_switches.py:508-525 | a fabric already collected is skipped; otherwise exactly one status poll is recorded for it, the fabric cache only grows, and it is refreshed only for an unknown fabric |
| SwitchStatus.VisitKeeps | dcnm/heirarchy/dcnm_switches.py:509-525 | recording a poll for a fabric not yet collected keeps the one-poll-per-fabric invariant |
| SwitchStatus.Loop | dcnm/heirarchy/dcnm_switches.py:507-525 | the loop over the serials only appends polls, at most one per serial, and the fabric cache only grows |
| SwitchStatus.Pick | dcnm/heirarchy/dcnm_switches.py:529-531 | the result reports exactly the requested serials that some status record names, each with a status recorded for it |
| SwitchStatus.Collect | dcnm/heirarchy/dcnm_switches.py:489-533 | on success at least one fabric answered, every reported serial was requested and there are at most as many polls as serials |
| SwitchStatus.NothingCollectedRaises | dcnm/heirarchy/dcnm_switches.py:526-528 | when no fabric returns statuses, DCNMSwitchStatusError is raised |
| SwitchStatus.Wait | dcnm/heirarchy/dcnm_switches.py:555-581 | success means some poll showed every switch at the target status; a timeout returns the last poll's lagging switches, never an empty set; a first poll that raises raises, one that is empty raises DCNMSwitchStatusError and one that is non-empty and all on target succeeds; with no poll at all, reading the missing response raises AttributeError |
| SwitchStatus.WaitStopsAtTarget | dcnm/heirarchy/dcnm_switches.py:569-571 | a first poll with every switch at the target ends the wait with success |
| SwitchStatus.WaitTimesOut | dcnm/heirarchy/dcnm_switches.py:575-581 | when every poll lags, the result is the last poll's switches that are off target |
| SwitchStatus.WaitDecidedByFirstNonLagging | dcnm/heirarchy/dcnm_switches.py:562-581 | after any run of polls with switches off target, the first poll that raises, comes back empty or shows every switch at the target decides the wait |
| SwitchStatus.WaitForSwitchesStatus | dcnm/heirarchy/dcnm_switches.py:535-581 | the decorated wait succeeds exactly when the loop does, with the same result; any failure surfaces as UnboundLocalError on `value` |
| IfSwitches.FileSwitches | dcnm/interfaces/dcnm_interfaces.py:136-140 | filing succeeds exactly when every record has a role and a fabric name, and keeps both maps well formed; a missing field raises KeyError |
| IfSwitches.FileSwitchesMembers | dcnm/interfaces/dcnm_interfaces.py:136-140 | a serial is in the leaf map exactly when some record lists it as a leaf, and in the not-leaf map exactly when some record lists it with another role |
| IfSwitches.FileSwitchesPartition | dcnm/interfaces/dcnm_interfaces.py:136-140 | with distinct serials, each switch lands in exactly one of the two maps, by its role |
| IfSwitches.GetAllSwitches | dcnm/interfaces/dcnm_interfaces.py:117-140 | both maps start empty and are rebuilt from the reply; a reply failing the response check raises |
| IfSwitches.RecordPair | dcnm/interfaces/dcnm_interfaces.py:401-406 | an unpaired serial maps to None; a pair string must split on `~` into exactly two parts, else ValueError; then each peer maps to the other |
| IfSwitches.RecordPairSymmetric | dcnm/interfaces/dcnm_interfaces.py:403-404 | the pair `"A~B"` records A to B and B to A and nothing else |
| IfSwitches.VpcPairs | dcnm/interfaces/dcnm_interfaces.py:399-406 | with the pair query made through the object's own connection: known pairs are kept; every leaf serial ends up recorded or queried; only serials not already recorded are queried |
| IfSwitches.GetSwitchesVpcPairs | dcnm/interfaces/dcnm_interfaces.py:395-406 | with the pair query made through the object's own connection: with no leaf switches it raises DCNMSwitchesSwitchesParameterError; otherwise only leaf serials not yet recorded are queried |
| IfSwitches.StatusSerials | dcnm/interfaces/dcnm_interfaces.py:1295-1306 | given serials are used as they are, a single one as a one-element list; otherwise the leaf serials followed by the not-leaf serials, and with neither it raises DCNMSwitchStatusParameterError |
| IfSwitches.FabricOf | dcnm/interfaces/dcnm_interfaces.py:1309-1311 | a serial's fabric comes from the leaf map when filed there with a non-empty fabric, else from the not-leaf map when filed there with one, and is asked of the controller only when neither map has one |
| IfSwitches.GetSwitchesStatus | dcnm/interfaces/dcnm_interfaces.py:1292-1336 | without serials or discovered switches it raises DCNMSwitchStatusParameterError; statuses are reported only for requested serials; each fabric is polled at most once and at least one answered |
| IfSwitches.WaitForSwitchesStatus | dcnm/interfaces/dcnm_interfaces.py:1338-1385 | success means some poll showed every switch at the target; a timeout returns the last poll's lagging switches, never empty; every failure, an empty first poll included, surfaces through the timing decorator as UnboundLocalError on `value` |
| IfPolicies.Params | dcnm/interfaces/dcnm_interfaces.py:307-316 | a given list is joined with commas and a single serial passed through; without them the leaf then not-leaf serials are joined, and with neither map filled it raises DCNMSwitchesPoliciesParameterError |
| IfPolicies.ListFilter | dcnm/interfaces/dcnm_interfaces.py:353-365 | an active template or config filter that is not a list or tuple raises DCNMSwitchesPoliciesParameterError; a list is matched with the pattern check |
| IfPolicies.PassesRaw | dcnm/interfaces/dcnm_interfaces.py:334-365 | a policy passes only if every active filter matches it; with no active filter every policy passes |
| IfPolicies.Passes | dcnm/interfaces/dcnm_interfaces.py:333-371 | a parameter error from the pattern check is re-raised as DCNMSwitchesPoliciesParameterError; other outcomes are the filters' own |
| IfPolicies.GetSwitchesPolicies | dcnm/interfaces/dcnm_interfaces.py:296-376 | with no serials and nothing discovered it raises; the previous policies are saved when asked and something was held; the result holds exactly the reply's policies that pass the fabric test and every filter, grouped by serial with no empty group |
| IfPolicies.NoFiltersKeepAll | dcnm/interfaces/dcnm_interfaces.py:321-376 | without filters or fabric every policy of the reply is kept |
| IfPolicies.FilterEntries | dcnm/interfaces/dcnm_interfaces.py:1526-1545 | filtering keeps exactly the entries the verdict accepts, unchanged, and only keys of the input |
| IfPolicies.NvVerdictRaw | dcnm/interfaces/dcnm_interfaces.py:1522-1545 | with an active config filter no entry is ever kept, because the second config test deletes what the first one kept |
| IfPolicies.NvVerdict | dcnm/interfaces/dcnm_interfaces.py:1525-1555 | a parameter error from the pattern check is re-raised as DCNMInterfacesParameterError |
| IfPolicies.GetFilteredInterfacesNvpairs | dcnm/interfaces/dcnm_interfaces.py:1442-1557 | the result is a subset of the input with unchanged entries, holding every entry the filters accept |
| IfPolicies.ConfigFilterEmptiesAll | dcnm/interfaces/dcnm_interfaces.py:1537-1545 | with an active config filter the result is empty, whatever the entries |
| IfPolicies.NvVerdictCorrected | dcnm/interfaces/dcnm_interfaces.py:1524-1545 | with the second test applied to `non_config`, as the docstring describes, a kept entry's CONF matches the config filter, matches no non-config pattern, and its policy matches the policy filter |
| IfPolicies.CorrectedConfigKeepsMatches | dcnm/interfaces/dcnm_interfaces.py:1537-1540 | with the correction, a config filter keeps an entry exactly when some pattern is found in its `CONF` |
| IfPolicies.GetFilteredInterfacesNvpairsCorrected | dcnm/interfaces/dcnm_interfaces.py:1442-1557 | with the correction, the result holds exactly the input entries the corrected verdict accepts, unchanged |
| IfPolicies.DetailVerdict | dcnm/interfaces/dcnm_interfaces.py:1640-1663 | a kept entry has the requested physical flag; without policy or operational-status filters the physical flag alone decides; a parameter error from the pattern check (the `except DCNMParamaterError` clause, its misspelled name read as DCNMParameterError) becomes DCNMInterfacesParameterError and every other exception passes through unchanged |
| IfPolicies.GetFilteredInterfacesDetails | dcnm/interfaces/dcnm_interfaces.py:1635-1666 | the result holds exactly the input entries the filters accept, unchanged; a failure is some entry's verdict error: DCNMInterfacesParameterError, or the TypeError or IndexError of a malformed pattern |
| IfInventory.Comprehension | dcnm/interfaces/inventory.py:40-46 | a dictionary comprehension has exactly the records' keys |
| IfInventory.ComprehensionAt | dcnm/interfaces/inventory.py:40-46 | a key holds the value of its last record |
| IfInventory.GetFabricInventoryDetails | dcnm/interfaces/inventory.py:32-46 | the fabric's name and serial maps are rebuilt from exactly the returned records; other fabrics are untouched; a failed request raises |
| IfInventory.DetailsInverse | dcnm/interfaces/inventory.py:40-43 | with unique names and serials the name-to-serial and serial-to-name maps of a fabric are inverse to each other |
| IfInventory.Get | dcnm/interfaces/inventory.py:73-79 | `.get(key, None)` finds the key's value exactly when the key is present |
| IfInventory.GetSwitchSerial | dcnm/interfaces/inventory.py:68-75 | a cached fabric is answered from the cache without a fetch; otherwise the fabric is fetched, and the serial is found exactly when some record has that name |
| IfInventory.GetSwitchName | dcnm/interfaces/inventory.py:77-81 | a cached fabric is answered from the cache without a fetch; otherwise the fabric is fetched, and the name is found exactly when some record has that serial |
| IfInventory.CachedIgnoresFetch | dcnm/interfaces/inventory.py:72-79 | for a cached fabric the answer does not depend on the controller |
| IfInventory.AppendSwitches | dcnm/interfaces/inventory.py:62-66 | appending succeeds exactly when every record has a role, else KeyError; the two lists grow by exactly the number of records |
| IfInventory.GetAllSwitches | dcnm/interfaces/inventory.py:58-66 | a failed request raises; otherwise the records are appended to the lists without clearing them |
| IfInventory.AppendSwitchesParts | dcnm/interfaces/inventory.py:62-66 | the leaf serials, in order, are appended to the leaf list and the rest to the other list |
| IfInventory.SerialsSplit | dcnm/interfaces/inventory.py:62-66 | each switch goes to exactly one list |
| IfInventory.AppendTwice | dcnm/interfaces/inventory.py:58-66 | running discovery twice lists every switch twice, because nothing is cleared |
| IfInventory.GetDescChange | dcnm/interfaces/inventory.py:181-190 | a key in the table always sets `DESC` to the table's value and reports a change; other keys are untouched |
| IfInventory.DescRepeats | dcnm/interfaces/inventory.py:183-189 | reapplying reports a change again even though `DESC` already holds the value |
| IfInventory.GetCdpChange | dcnm/interfaces/inventory.py:193-214 | a mgmt interface with `CDP_ENABLE` `true` gets `false`; any other interface lacking `no cdp enable` gets it set, or appended after the two characters `\n`; nothing else changes |
| IfInventory.CdpIdempotent | dcnm/interfaces/inventory.py:193-214 | after one application a second one reports no change |
| IfInventory.Examine | dcnm/interfaces/inventory.py:161-175 | a non-leaf, non-mgmt interface is never touched; a non-leaf mgmt one gets only the CDP check; on a leaf, only ethernet or mgmt interfaces with a non-`fabric` policy are checked; a reported change comes from the table or from CDP |
| IfInventory.GetInterfacesToChange | dcnm/interfaces/inventory.py:159-178 | an interface is in the change set exactly when a check changed it, holding its changed unit; the stored map keeps every key |
| IfInventory.OtherSwitchUntouched | dcnm/interfaces/inventory.py:170-172 | a non-mgmt interface of a non-leaf switch is neither changed nor listed |
| IfSwitches.FabricOfFiledIgnoresLookup | dcnm/interfaces/dcnm_interfaces.py:1309-1311 | for a serial either map files under a non-empty fabric the controller lookup does not matter, and the answer is one of the maps' entries for it |
| IfSwitches.GetVpcPairAsWritten | dcnm/interfaces/dcnm_interfaces.py:382-392 | as written the pair query reads the name `dcnm`, bound only when the module runs as a script, so it raises NameError (finding) |
| IfSwitches.VpcPairsAsWritten | dcnm/interfaces/dcnm_interfaces.py:397-405 | as written the loop succeeds exactly when every serial is already recorded, then leaving the record unchanged, and otherwise raises NameError |
| IfSwitches.SwitchesVpcPairsAsWritten | dcnm/interfaces/dcnm_interfaces.py:394-405 | as written, collecting the leaf switches' pairs succeeds exactly when there are leaf switches and every one is already recorded; with any new leaf it raises NameError (finding) |
| IfPolicies.CorrectedNonConfigDropsMatches | dcnm/interfaces/dcnm_interfaces.py:1542-1545 | with only a non-config filter, the corrected test drops an entry exactly when one of its regexes is found in the entry's CONF |
| IfPolicies.DetailVerdictRaw | dcnm/interfaces/dcnm_interfaces.py:1641-1655 | an entry is kept exactly when every active filter's patterns match and the physical flag agrees; an error is the error of the policy or operational-status check |
| IfPolicies.DetailTupleEscapes | dcnm/interfaces/dcnm_interfaces.py:1409-1418 | a `(key, regex)` pattern raises TypeError inside the pattern check, which the details filter does not translate |
| Units.FirstNvPairs | dcnm/interfaces/change_interfaces.py:148 | `detail['interfaces'][0]['nvPairs']` exists exactly when the unit lists an interface, and raises IndexError otherwise |
| Units.NvGet | dcnm/interfaces/change_interfaces.py:165-173 | reading a template variable succeeds exactly when the unit lists an interface whose variables hold the name; otherwise IndexError or KeyError naming it |
| Units.SetNv | dcnm/interfaces/change_interfaces.py:166-175 | writing a template variable changes that one entry of the first interface and nothing else in the unit |
| Units.FirstIfName | dcnm/interfaces/inventory.py:166 | the first interface's name exists exactly when the unit lists an interface, and raises IndexError otherwise |
| Predicates.AppendLine | dcnm/interfaces/change_interfaces.py:174-183 | an empty config becomes the line itself; otherwise the config is kept, followed by one newline and the line |
| Predicates.AppendLineContains | dcnm/interfaces/change_interfaces.py:174-183 | the appended line is always found in the result |
| Predicates.AppendLineKeepsOut | dcnm/interfaces/change_interfaces.py:174-183 | appending cannot create a newline-free text that neither part held |
| Predicates.DescChange | dcnm/interfaces/change_interfaces.py:143-156 | a unit changes exactly when its key is in the table, its name does not contain `vpc` in any case, and its `DESC` differs; it then gets the table's description; a reported change is exactly a changed unit |
| Predicates.DescIdempotent | dcnm/heirarchy/plugins.py:44-57 | applying the description change to its own output reports no change |
| Predicates.MgmtCdpOn | dcnm/heirarchy/plugins.py:72 | with the mgmt flag, a mgmt interface is switched off exactly when its `CDP_ENABLE` is `true`; without the flag or on another name the mgmt branch never fires |
| Predicates.CdpChange | dcnm/heirarchy/plugins.py:68-94 | the mgmt branch sets `CDP_ENABLE` to `false` and leaves `CONF` alone; otherwise a leaf ethernet host port lacking `no cdp enable` gets it set or appended on a new line; any other unit is unchanged |
| Predicates.CdpIdempotent | dcnm/interfaces/change_interfaces.py:161-187 | applying the CDP change to its own output reports no change, for names that are not both mgmt and ethernet names |
| Predicates.FirstUplinks | dcnm/heirarchy/plugins.py:113 | the uplinks are those of the first model entry found in the switch's model; with no such entry it raises IndexError |
| Predicates.OrphanChange | dcnm/heirarchy/plugins.py:107-136 | an unknown switch raises KeyError, an unmatched model IndexError and an empty uplink list DCNMValueError; only non-mgmt, non-uplink trunk or access host ports whose config lacks the guard get `vpc orphan-port suspend` appended; a reported change is exactly a changed unit |
| Predicates.OrphanFlat | dcnm/interfaces/change_interfaces.py:198-227 | the flat closure's guard is the line it writes, so a changed unit always holds `vpc orphan-port suspend` |
| Predicates.OrphanHier | dcnm/heirarchy/plugins.py:119-135 | the plugin changes a unit only when its config lacks `vpc orphan-port enable` |
| Predicates.OrphanAgain | dcnm/heirarchy/plugins.py:119-135 | after a change, a second application changes again exactly when the new config still lacks the guard |
| Predicates.OrphanFlatIdempotent | dcnm/interfaces/change_interfaces.py:210-227 | applying the flat orphan-port change to its own output reports no change |
| Predicates.OrphanHierRepeats | dcnm/heirarchy/plugins.py:122-135 | once the plugin has changed a unit, applying it again changes it again, appending another suspend line each time |
| Predicates.SuspendAfter | dcnm/heirarchy/plugins.py:130-132 | appending the suspend line never introduces `vpc orphan-port enable` |
| ChangeSet.Walk | dcnm/interfaces/interfaces_utilities.py:85-92 | the walk succeeds exactly when every check does; a key is in the result exactly when its check reported a change, holding the unit as the check left it |
| ChangeSet.Changes | dcnm/interfaces/interfaces_utilities.py:82-94 | the change set is a subset of the stored units: exactly the keys whose check reported a change, with the changed units |
| Runner.Run | dcnm/interfaces/interfaces_utilities.py:113-131 | one verdict is collected per applicable predicate, so every applicable predicate is called; the result is their OR; with none applicable the unit is untouched and the result is False |
| Runner.RunApplicable | dcnm/interfaces/interfaces_utilities.py:117 | predicates that do not apply are never called: running all of them equals running only the applicable ones |
| Runner.RunReportsEdits | dcnm/interfaces/interfaces_utilities.py:113-131 | when every predicate reports its own edits, an edited unit is always reported as changed |
| Runner.OffLeafSkipsLeafOnly | dcnm/heirarchy/plugin_utils.py:128 | off a leaf, the run is the run of the non-leaf-only predicates, none of which is leaf-only |
| Runner.AllApplyOnLeaf | dcnm/interfaces/interfaces_utilities.py:117 | when no predicate is leaf-only, leaf and non-leaf units are treated alike |
| Runner.RunCheck | dcnm/interfaces/interfaces_utilities.py:88-89 | a unit's leaf flag is membership of its serial in the leaf switches |
| Runner.Originals | dcnm/interfaces/interfaces_utilities.py:91 | the snapshot has exactly the change set's keys, in the same order, each holding the unmutated stored unit |
| Runner.GetInterfacesToChange | dcnm/interfaces/interfaces_utilities.py:71-94 | a key is in both the change set and the snapshot exactly when some predicate reported a change; the change set holds the edited unit and the snapshot the stored one; other keys are in neither |
| Runner.NothingSelected | dcnm/interfaces/interfaces_utilities.py:113-131 | with no predicates the change set is empty |
| Actions.PutInterface | dcnm/interfaces/dcnm_interfaces.py:996-1000 | a put succeeds exactly on return code 200; a reply without a return code raises, and a raised request propagates unchanged |
| Actions.PutAll | dcnm/interfaces/dcnm_interfaces.py:1053-1077 | every key in order is put; the loop completes exactly when no put raises, and then the keys split into disjoint success and failed sets, success holding exactly the keys whose put succeeded |
| Actions.PutInterfaceChanges | dcnm/interfaces/dcnm_interfaces.py:1002-1077 | over the dictionary to change: success and failed partition its keys, success being exactly the keys the controller accepted; the hierarchy copy (dcnm_puts.py) is the same body under the spinner, which Deploy.DeployStub applies |
| Actions.CreatedPutFails | dcnm/interfaces/dcnm_interfaces.py:1626-1632 | a put answered with 201 Created is still counted as failed, as only 200 counts as success |
| Actions.PostNewPolicy | dcnm/interfaces/dcnm_interfaces.py:1285-1290 | posting a policy succeeds exactly on return code 200; a raised request propagates |
| Actions.PostAll | dcnm/interfaces/change_interfaces.py:354-358 | every pickled policy is posted in order; the loop completes exactly when no post raises, and then it collects exactly the policies' ids |
| Actions.DeletePath | dcnm/interfaces/dcnm_interfaces.py:408-412 | a single id is deleted through its own path and a list or tuple through the batch path; any other argument leaves the path unbound |
| Actions.DeletePathIds | dcnm/interfaces/dcnm_interfaces.py:412 | the batch path names exactly the ids it was given, in order, when no id holds a comma |
| Actions.DeleteSwitchPolicies | dcnm/heirarchy/dcnm_puts.py:196-205 | the delete succeeds exactly when the DELETE of its path is answered with 200; an argument of another type raises before any request |
| Actions.PayloadList | dcnm/interfaces/dcnm_interfaces.py:1110-1111 | a single interface is deployed as a one-element list, a list as itself |
| Actions.Finish | dcnm/interfaces/dcnm_interfaces.py:1112-1117 | the saved session timeout is restored after a checked reply, and stays overridden when checking raised |
| Actions.DeployInterfaces | dcnm/interfaces/dcnm_interfaces.py:1079-1118 | the deploy succeeds exactly when the POST of the payload list is answered with 200; afterwards the session timeout is the original one unless the check raised; through the timing decorator every failure surfaces as UnboundLocalError on `value` |
| Actions.DeployOneIsList | dcnm/interfaces/dcnm_interfaces.py:1110-1111 | deploying one interface is the same as deploying the list holding it |
| Actions.FabricDeployPath | dcnm/interfaces/dcnm_interfaces.py:1130 | the fabric deploy path embeds the fabric name between the fixed prefix and suffix |
| Actions.FabricDeployPathInjective | dcnm/interfaces/dcnm_interfaces.py:1130 | two fabrics share a deploy path only when they are the same fabric |
| Actions.DeployFabricConfig | dcnm/interfaces/dcnm_interfaces.py:1120-1139 | the fabric deploy succeeds exactly when the POST to its path is answered with 200, with the timeout restored unless the check raised; every failure surfaces as UnboundLocalError on `value` |
| Actions.DeployPolicies | dcnm/interfaces/dcnm_interfaces.py:1141-1161 | a list or tuple is deployed and the call returns True exactly on 200; a bad argument, like any other failure, surfaces through the timing decorator as UnboundLocalError on `value`, with the timeout left overridden |
| Actions.DeployTupleIsList | dcnm/interfaces/dcnm_interfaces.py:1153-1154 | a tuple of policy ids deploys exactly like the list of the same ids |
| Actions.CreateDeployList | dcnm/interfaces/dcnm_interfaces.py:1425-1439 | one deploy entry per key, in order, with the serial and interface name swapped into the entry's fields |
| Actions.CreateDeployListInverse | dcnm/heirarchy/interfaces_utilities.py:166-180 | reading the keys back from the deploy list gives the input keys: the list loses and reorders nothing |
| Deploy.Partition | dcnm/interfaces/dcnm_interfaces.py:1056-1072 | a verdict per key in order; without an exception the two sets partition the keys, the first holding exactly the keys judged true |
| Deploy.Strip | dcnm/interfaces/interfaces_utilities.py:143-146 | popping the volatile variables removes exactly PRIORITY and FABRIC_NAME from the first interface and keeps everything else; a unit without interfaces raises IndexError |
| Deploy.StripIgnoresVolatile | dcnm/interfaces/interfaces_utilities.py:143-147 | the comparison does not see a change to PRIORITY or FABRIC_NAME |
| Deploy.StripSeesOthers | dcnm/interfaces/interfaces_utilities.py:143-147 | the comparison sees a change to any other variable of the first interface |
| Deploy.VerifyKey | dcnm/interfaces/interfaces_utilities.py:142-155 | an interface is verified when its desired and pulled configurations agree after stripping; an interface missing from the pulled data raises KeyError |
| Deploy.Verify | dcnm/heirarchy/interfaces_utilities.py:113-144 | without an exception the interfaces to change split into verified and failed, verified holding exactly those whose pulled configuration matches |
| Deploy.VerifySelf | dcnm/interfaces/interfaces_utilities.py:134-163 | verifying a configuration against itself verifies every interface |
| Deploy.InterfaceDeploy | dcnm/heirarchy/interfaces_utilities.py:183-222 | the deploy list is built from the keys in their order; policies are deployed exactly when they are given and this is a fallback run, a single id wrapped into a list; a raising interface deploy ends the run |
| Deploy.DeploySerials | dcnm/heirarchy/interfaces_utilities.py:233-243 | a string is wrapped into a list and a list used as is; with no serials the leaf and non-leaf switches are used, or, when there are none, the deploy raises; a tuple raises on `copy` |
| Deploy.DeployLoop | dcnm/interfaces/interfaces_utilities.py:239-251 | each serial is deployed at most once, none already accounted for; every serial ends up deployed or accounted for as a peer; with more than one serial no switch is deployed after its peer |
| Deploy.DeployLoopSingle | dcnm/interfaces/interfaces_utilities.py:236-251 | a single serial is deployed as given, with no peer lookup |
| Deploy.DeployLoopNoPeers | dcnm/interfaces/interfaces_utilities.py:239-251 | without peer skipping, distinct serials are each deployed, in order |
| Deploy.SwitchDeploy | dcnm/heirarchy/interfaces_utilities.py:225-279 | a bad serials argument raises before any deploy; otherwise the serials waited for are the argument's, each deployed serial is distinct and among them, every serial is covered by a deploy or its peer's, and the peers come from the known map unless they must and can be fetched |
| Deploy.Finish | dcnm/interfaces/interfaces_utilities.py:255-260 | the switch deploy ends with a status wait on the serials; it fails exactly when the wait raises |
| Deploy.SerialsArg | dcnm/interfaces/change_interfaces.py:305-326 | under `--all` the switch deploy gets no serials, otherwise the run's list |
| Deploy.DeployStub | dcnm/interfaces/change_interfaces.py:292-302 | pushed and failed partition the interfaces to change, pushed being exactly those the controller accepted; the deploy is by switch exactly under `--switch_deploy`; an interface deploy covers the pushed keys and deploys policies exactly on a backout run with policies; every interface to change is verified against the pulled configuration |
| Deploy.DeployListIsPushed | dcnm/heirarchy/change_interfaces.py:133-145 | with a faithful set order, the interface deploy list holds each pushed interface exactly once |
| Actions.DeployPoliciesCorrected | dcnm/interfaces/dcnm_interfaces.py:1150-1161 | the undecorated body: any other argument raises DCNMPolicyDeployError with the timeout left overridden, and a failed POST raises its own error |
| Actions.DeployPoliciesSpun | dcnm/interfaces/dcnm_interfaces.py:1141-1161 | the decorator changes only which exception a failure raises: the decorated call succeeds exactly when the body does, with the same result and the same timeout left behind |
| HierUtils.Spinner | dcnm/heirarchy/DCNM_utils.py:51-80 | a call that returns passes its value through unchanged; a call that raises always surfaces as UnboundLocalError on `value`, because the handler logs `value` before it is bound |
| HierUtils.SpinnerMasks | dcnm/heirarchy/DCNM_utils.py:59-66 | two different failures of the wrapped call become the same exception, although a plain re-raise would have kept them apart |
| HierUtils.SpinnerCorrected | dcnm/heirarchy/DCNM_utils.py:59-67 | re-raising without reading `value` passes every result and every exception through unchanged |
| HierPlugins.Lookup | dcnm/heirarchy/plugin_utils.py:90-101 | a name finds a plugin exactly when it is the registered name of one: its `RegisterPlugin` name or else its class name |
| HierPlugins.LookupRegistryName | dcnm/heirarchy/plugins.py:14-15 | every plugin is found under its registered name, so no two plugins share a name |
| HierPlugins.SetPlugins | dcnm/heirarchy/plugin_utils.py:103-104 | the selection is exactly the requested names that name a registered plugin; unknown names are dropped silently |
| HierPlugins.SetPluginsIgnoresOrder | dcnm/heirarchy/plugin_utils.py:103-104 | requests naming the same plugins, in any order and with any repeats, select the same plugins |
| HierPlugins.Call | dcnm/heirarchy/plugins.py:44-136 | the description and CDP plugins report a change exactly when they edited the interface; the description plugin leaves an interface without a wanted description alone |
| HierPlugins.DescPolicyRoute | dcnm/heirarchy/plugins.py:20-34 | with the config regex passed as `generatedConfig`: without a spreadsheet the description table comes from the switches' freeform policies, whose ids are then deleted; a failed policy query raises before anything is deleted |
| HierPlugins.UplinksFile | dcnm/heirarchy/plugins.py:103 | the orphan plugin reads the `uplinks` option; a namespace without it raises AttributeError |
| HierPlugins.OrphanInit | dcnm/heirarchy/plugins.py:98-105 | the orphan plugin corrected to keep a details dictionary: it keeps the held switch details, or fetches them when none are held (a failed fetch raises); it needs a non-empty uplinks file and keeps its table |
| HierPlugins.SwitchesDetailsAsWritten | dcnm/heirarchy/dcnm_switches.py:444-487 | the details fetch the orphan plugin makes gets through only under `--all` with an empty inventory: any list of serials raises the parameter error, and otherwise the fetch's error or the unpacking error of the first serial is raised |
| HierPlugins.OrphanInitAsWritten | dcnm/heirarchy/plugins.py:98-105 | as written the orphan plugin initialises only under `--all` with an empty inventory, keeping the details flag instead of a table; there it agrees with the corrected plugin on the uplinks, and a list of serials always raises the details fetch's parameter error |
| HierPlugins.OrphanPluginFails | dcnm/heirarchy/plugins.py:98-100 | as written, selecting the orphan plugin with a serial list, or under `--all` with any switch in the inventory, ends in the initialization error naming GetOrphanportChange |
| HierPlugins.OrphanFlagRaises | dcnm/heirarchy/plugins.py:108-111 | as written, an initialised orphan plugin raises TypeError on the first leaf interface, subscripting a bool |
| HierPlugins.OrphanPluginCorrected | dcnm/heirarchy/plugins.py:98-105 | corrected, the orphan plugin initialises exactly when details are held or fetched and the uplinks file loads and expands, and keeps those details and that table |
| HierPlugins.MgmtOption | dcnm/heirarchy/plugins.py:66 | the CDP plugin reads the `mgmt` option as written; a namespace without it raises |
| HierPlugins.Initialize | dcnm/heirarchy/plugins.py:16-105 | each plugin kind configures into its own shape: the CDP plugin keeps the `mgmt` option and the leaf switches, the description plugin the table from the spreadsheet or the policies, the orphan plugin its uplinks with the details as written (a bool) or corrected (a dictionary) |
| HierPlugins.InitAll | dcnm/heirarchy/plugin_utils.py:110-121 | the loop succeeds exactly when every name's initialization does, and then maps exactly the listed names to their configurations; a failure names the first plugin in order whose initialization failed, every earlier one having succeeded |
| HierPlugins.InitializeSelected | dcnm/heirarchy/plugin_utils.py:110-121 | every selected plugin is initialized, in selection order; success holds each one's configuration; a failure is re-raised as an initialization error naming the first plugin whose initialization failed, every earlier one having succeeded |
| HierPlugins.CdpPluginFails | dcnm/heirarchy/plugins.py:66 | with the hierarchy tool's own command line, which defines no `--mgmt`, selecting the CDP plugin always fails to initialize |
| HierPlugins.CdpPluginCorrected | dcnm/heirarchy/plugins.py:60-67 | reading a missing `mgmt` option as off, the CDP plugin initializes with management CDP left alone |
| HierPlugins.Entries | dcnm/heirarchy/plugin_utils.py:123-135 | each selected plugin becomes a runner entry that is leaf-only exactly when the plugin is the orphan plugin and checks through the plugin's call |
| HierPlugins.RunSelected | dcnm/heirarchy/plugin_utils.py:123-135 | an interface is reported changed exactly when some plugin that ran reported a change; off a leaf, a run of only orphan plugins changes nothing |
| HierPlugins.RunSelectedIsRun | dcnm/heirarchy/plugin_utils.py:123-135 | running the selected plugins is the shared runner over their entries, so both generations apply predicates the same way |
| HierPlugins.NoneApplicable | dcnm/heirarchy/plugin_utils.py:128 | off a leaf, no leaf-only plugin applies |
| HierPlugins.OrphanSkipsNonLeaf | dcnm/heirarchy/plugins.py:104 | the orphan plugin never touches an interface of a non-leaf switch |
| HierPlugins.Singleton | dcnm/heirarchy/plugin_utils.py:67-77 | the first construction is cached and returned; later constructions return the cached instance |
| HierPlugins.SingletonOnce | dcnm/heirarchy/plugin_utils.py:70-74 | constructing the engine twice returns the first instance, whatever the second construction's arguments |
| HierPlugins.DescPolicyRouteAsWritten | dcnm/heirarchy/plugins.py:20-21 | as written the policy query passes the keyword `config`, which `get_switches_policies` does not take, so it raises TypeError before anything is fetched (finding) |
| HierPlugins.DescRoute | dcnm/heirarchy/plugins.py:20-34 | as written the policy route always raises TypeError; corrected it is the policy route |
| HierPlugins.DescPluginFails | dcnm/heirarchy/plugin_utils.py:110-121 | as written, selecting the description plugin without a spreadsheet always fails to initialize, as PlugInInitializationError naming `desc` |
| HierPlugins.DescPluginCorrected | dcnm/heirarchy/plugins.py:16-41 | corrected, the description plugin without a spreadsheet initializes exactly when the policy route succeeds, holding its table; with a spreadsheet both versions agree |
| Cli.Flag | dcnm/heirarchy/plugins.py:66 | reading an option the parser did not define raises AttributeError; a defined option reads as given |
| Cli.GetSerialNumbers | dcnm/interfaces/change_interfaces.py:305-326 | under `--all` there are no serials; otherwise the command-line serials followed by the file's, a failed file read raising, and an empty result raising "No Serial Numbers Provided!"; a returned list is never empty |
| Cli.SerialsKeepOrder | dcnm/heirarchy/interfaces_utilities.py:371-374 | the serials are the command line's in their order, then the file's in theirs |
| Cli.ParseInt | dcnm/interfaces/change_interfaces.py:239 | `int()` of a port number reads an optionally signed run of ASCII decimal digits with the digits' value; any other text raises ValueError naming the literal |
| Cli.ParseIntToString | dcnm/interfaces/change_interfaces.py:239-240 | reading back a printed port number gives the number |
| Cli.PortOf | dcnm/interfaces/change_interfaces.py:239 | the port of an interface name is the number after the first slash; a name without a slash raises IndexError |
| Cli.ModelUplinks | dcnm/interfaces/change_interfaces.py:237-240 | a model's uplinks are the Ethernet interfaces from the first listed port to the last, under the first entry's module prefix; fewer than two entries raise IndexError, a bad port raises ValueError |
| Cli.GetUplinks | dcnm/heirarchy/interfaces_utilities.py:347-356 | every model of the uplinks file is expanded; on failure the error raised is that of the first model whose expansion fails, every earlier one having expanded; otherwise each model keeps its name with its expanded range |
| Cli.UplinkNameParses | dcnm/interfaces/change_interfaces.py:239-240 | every generated uplink name splits back into its prefix and port number |
| Cli.ModelUplinksPorts | dcnm/interfaces/change_interfaces.py:237-240 | the range from port a to port b has b - a + 1 names (none when b < a), the k-th naming port a + k |
| Cli.PortEnd | dcnm/interfaces/change_interfaces.py:239 | a range end splits into its module prefix and its port number |
| Files.FileCheck | dcnm/heirarchy/interfaces_utilities.py:301-332 | a missing file raises "not found"; a load error propagates; an empty load raises "empty input file"; any returned contents are the loaded, non-empty contents |
| Files.FileExists | dcnm/heirarchy/interfaces_utilities.py:326-332 | without loading, the check returns True exactly for an existing file and raises "not found" otherwise |
| Files.ReadSerials | dcnm/heirarchy/interfaces_utilities.py:335-344 | the serials file must exist and be non-empty; its lines are returned as read |
| DescTable.Matched | dcnm/interfaces/dcnm_interfaces.py:1589-1592 | every kept policy's generated configuration matches the pattern, every matching policy is kept, and when all match nothing is dropped |
| DescTable.MatchedPositions | dcnm/interfaces/dcnm_interfaces.py:1589-1592 | the kept policies come from strictly increasing positions that are exactly the matching positions: the result is the list with the non-matching policies removed, order preserved |
| DescTable.FlatGetInfo | dcnm/interfaces/dcnm_interfaces.py:1560-1617 | one entry per matching policy, in order, holding that policy's id; no matching policy gives None |
| DescTable.MergeInto | dcnm/interfaces/change_interfaces.py:132-133 | merging keeps every key seen; a key takes the value of the last entry holding it, and a key no entry holds keeps its earlier value |
| DescTable.Merge | dcnm/interfaces/change_interfaces.py:132-133 | the merged table holds every key of every entry |
| DescTable.MergeIntoKeys | dcnm/interfaces/change_interfaces.py:132-133 | the merged table holds no key that no entry had |
| DescTable.TableOf | dcnm/interfaces/change_interfaces.py:132-133 | the description table holds exactly the interface-and-serial keys with a single description value, with that value |
| DescTable.Ids | dcnm/interfaces/change_interfaces.py:127 | the ids to delete are exactly the entries' policy ids |
| DescTable.MatchedMergesSame | dcnm/interfaces/dcnm_interfaces.py:1591-1612 | dropping the non-matching policies first gives the same merged table: policies that do not match contribute nothing |
| DescTable.FromPolicies | dcnm/interfaces/change_interfaces.py:121-133 | no matching policy raises TypeError; otherwise the set-up succeeds exactly when the batched delete of the ids does, records the ids deleted and builds the table from the merged entries |
| DescTable.DeletesEveryEntry | dcnm/heirarchy/plugins.py:28-32 | the delete covers every entry's policy and nothing else |
| DescTable.Prepare | dcnm/interfaces/change_interfaces.py:118-141 | a named sheet is read instead of the policies, its failure raising; otherwise the policy route decides |
| DescTable.RowsTable | dcnm/heirarchy/interfaces_utilities.py:62-65 | every sheet row's interface and switch is a key, and the last row wins |
| DescTable.ReadExistingDescriptions | dcnm/heirarchy/interfaces_utilities.py:41-67 | a missing file raises "not found"; the sheet is read exactly when its lower-cased columns include description, interface and switch, else it raises "One or more columns missing"; the table is built from the rows |
| DescTable.LowerAll | dcnm/heirarchy/interfaces_utilities.py:56 | column names are compared lower-cased, one for one |
| FlatChange.PolicyRoute | dcnm/interfaces/change_interfaces.py:118-137 | without a sheet the description table comes from the matched free-form policies, whose ids are then deleted; a failed policy query raises first |
| FlatChange.GetOrphanportChange | dcnm/interfaces/change_interfaces.py:190-196 | the orphan predicate keeps the held switch details, or fetches them when none are held (a failed fetch raises), and needs an existing, non-empty uplinks file, whose expanded table it keeps |
| FlatChange.ChangesToMake | dcnm/interfaces/change_interfaces.py:273-285 | one predicate per flag given, in the order description, CDP, orphan; only the orphan predicate, always last, is leaf-only; no flag gives no predicate |
| FlatChange.DescEntries | dcnm/interfaces/change_interfaces.py:273-276 | a description run adds one predicate that is not leaf-only; without `-d` none is added |
| FlatChange.CdpEntries | dcnm/interfaces/change_interfaces.py:277-279 | a CDP run adds one predicate that is not leaf-only; without `-c` none is added |
| FlatChange.OrphanEntries | dcnm/interfaces/change_interfaces.py:280-283 | an orphan-port run adds one leaf-only predicate; without `-o` none is added |
| FlatChange.NormalDeploy | dcnm/interfaces/change_interfaces.py:244-289 | a run uses the serials from the command line and file, needs the interfaces and switches fetched, pushes exactly the interfaces to change (a subset of those stored), snapshots their stored configuration, and deploys no policies |
| FlatChange.Fallback | dcnm/interfaces/change_interfaces.py:329-366 | a backout restores exactly the pickled snapshot; description policies are reposted, and their ids deployed, exactly on a description run without a sheet |
| FlatChange.FallbackRestoresSnapshot | dcnm/interfaces/change_interfaces.py:286-288 | a backout after a normal run pushes exactly the interfaces that run changed, each back to its configuration before the change |
| FlatChange.ChangeInterfaces | dcnm/interfaces/change_interfaces.py:417-422 | `--backout` runs the fallback and anything else the normal deploy; a normal run pushes exactly the interfaces it chose to change, all of them stored ones, and a backout run pushes exactly the snapshot it read back; a failure is the failure of the run chosen |
| HierChange.GetInterfacesToChange | dcnm/heirarchy/interfaces_utilities.py:70-110 | a failed plugin initialization raises before any interface is examined; otherwise a stored interface is to change exactly when the plugins report a change on it, the leaf flag coming from the leaf switches, with the edited configuration to change and the stored one in the snapshot |
| HierChange.NoPluginNoChange | dcnm/heirarchy/interfaces_utilities.py:101-108 | with no plugin selected nothing changes |
| HierChange.NormalDeploy | dcnm/heirarchy/change_interfaces.py:99-130 | the changes are chosen by the plugins initialized with the run's serial numbers, and exactly the chosen interfaces are pushed, then deployed and verified through the stub; the deploy calls as the hierarchy writes them are not modelled (see Left out) |
| HierChange.DescriptionSelected | dcnm/heirarchy/change_interfaces.py:168 | the backout reads the `description` option as written; read as "the description plugin was selected" it succeeds exactly when plugins were named |
| HierChange.Fallback | dcnm/heirarchy/change_interfaces.py:146-178 | a backout restores exactly the pickled snapshot, reposting and deploying description policies exactly when descriptions were selected and no sheet named; the deploy calls as the hierarchy writes them are not modelled (see Left out) |
| HierChange.BackoutNeverCompletes | dcnm/heirarchy/change_interfaces.py:168 | with the hierarchy tool's own command line, which defines no `-d`, every backout run raises |
| HierChange.BackoutCorrected | dcnm/heirarchy/change_interfaces.py:167-177 | reading "description" as the selection of the description plugin, policies are restored exactly when that plugin was named and no sheet given |
| HierChange.FallbackRestoresSnapshot | dcnm/heirarchy/change_interfaces.py:125-130 | a corrected backout after a normal run pushes exactly the interfaces that run changed, each back to its configuration before the change |
| HierChange.ChangeInterfaces | dcnm/heirarchy/change_interfaces.py:236-246 | a namespace without `plugins` raises; `--backout` runs the fallback, anything else the normal deploy with only the selected plugins |
| CsvRows.ValidateCsvRows | dcnm/interfaces/utils.py:40-57 | the rows pass exactly when some row has a vpcId and every such row fills every required key; otherwise the error names the first failing row's number (counted from 1) and its first missing key, or says that no vPC row was found |
| CsvRows.OtherRowsIgnored | dcnm/interfaces/utils.py:49-50 | a row without a vpcId column never changes the verdict, wherever it stands |
| FlatChange.ChangeThenBackout | dcnm/interfaces/change_interfaces.py:286-288 | a normal run followed by a backout that reads back its snapshot pushes exactly the interfaces the normal run changed, each with its configuration from before the change |
| VpcRepair.FirstIntf | dcnm/interfaces/del_bad_vpcs.py:172 | the first interface of the first record, or IndexError when there is none |
| VpcRepair.Get | dcnm/interfaces/del_bad_vpcs.py:129-136 | a dictionary lookup yields the stored value exactly when the key is present, else KeyError naming it |
| VpcRepair.CheckVpc | dcnm/interfaces/del_bad_vpcs.py:171-173 | a vPC is misnamed exactly when "pc" occurs in its interface name or, failing that, in its `INTF_NAME`; a missing `INTF_NAME` is read only when the name does not already decide |
| VpcRepair.CorrectVpcInterface | dcnm/interfaces/del_bad_vpcs.py:176-221 | the vPC record is renamed with "pc" turned to "PC" in both its name and `INTF_NAME`, typed as a vPC, its fabric moved out of the variables, mirroring turned off and the four intent-only variables dropped; all other data is kept; the first missing variable raises KeyError |
| VpcRepair.CorrectedPassesCheck | dcnm/interfaces/del_bad_vpcs.py:212-213 | a corrected vPC is no longer misnamed, so the repair is not repeated |
| VpcRepair.CorrectIntDescription | dcnm/interfaces/del_bad_vpcs.py:290-297 | a member's `PRIMARY_INTF` gets "pc" turned to "PC", the member is typed as Ethernet with its fabric copied out, its policy id is dropped, and nothing else changes |
| VpcRepair.GetInterface | dcnm/interfaces/del_bad_vpcs.py:158-168 | the records are returned exactly when the code is 200; otherwise nothing |
| VpcRepair.SerialPair | dcnm/interfaces/del_bad_vpcs.py:255-257 | a vPC serial without `~` raises IndexError |
| VpcRepair.MemberLists | dcnm/interfaces/del_bad_vpcs.py:258-259 | the member lists are both peers' member variables split at commas; a missing one raises KeyError, PEER1 first |
| VpcRepair.DescriptionTargets | dcnm/interfaces/del_bad_vpcs.py:253-261 | the lookups are the PEER1 members on the first switch of the pair, then the PEER2 members on the second, in order |
| VpcRepair.Lookups | dcnm/interfaces/del_bad_vpcs.py:260-271 | every target is fetched in order and exactly the ones answering with records are kept, each a record some target returned; a skipped member looks its switch name up, which raises KeyError without a fabric or the fabric inventory fetch's error |
| VpcRepair.GetIntDescriptions | dcnm/interfaces/del_bad_vpcs.py:253-273 | a malformed vPC record raises before any lookup; otherwise one non-empty record list per member that answered |
| VpcRepair.MarkDeleteTarget | dcnm/interfaces/del_bad_vpcs.py:30-37 | the mark-delete names the vPC pair and `vpc` followed by the vPC id |
| VpcRepair.MarkDeleteVpc | dcnm/interfaces/del_bad_vpcs.py:28-46 | the mark-delete succeeds exactly when the DELETE is answered with 200 |
| VpcRepair.DeployVpc | dcnm/interfaces/del_bad_vpcs.py:237-250 | the deploy posts a one-element list for one record under a 300-second timeout and succeeds exactly on 200, restoring the timeout unless checking raised |
| VpcRepair.CorrectAll | dcnm/interfaces/del_bad_vpcs.py:343-345 | every member record is corrected in order; on failure the error is that of the first member whose correction fails, every earlier one having been corrected |
| VpcRepair.Traverse | dcnm/interfaces/del_bad_vpcs.py:343-345 | applying a step to each element in order succeeds exactly when every step does, keeping their results in order; a failure is the first failing step's error, every earlier step having succeeded |
| VpcRepair.CreateAll | dcnm/interfaces/del_bad_vpcs.py:351-354 | every corrected member is created in order; a refusal is only logged and the loop completes exactly when no creation raises |
| VpcRepair.PtiCalls | dcnm/interfaces/del_bad_vpcs.py:300-309 | one member creation per corrected member, in order |
| VpcRepair.Rebuild | dcnm/interfaces/del_bad_vpcs.py:340-358 | the vPC and its members are corrected before anything is created; a dry run stops there and reports success without a call; otherwise the vPC is created first and the members only once it was accepted |
| VpcRepair.Recreate | dcnm/interfaces/del_bad_vpcs.py:335-358 | outside a dry run the vPC is marked deleted before it is rebuilt, and a refused mark-delete reports failure with nothing rebuilt |
| VpcRepair.VpcDecision | dcnm/interfaces/del_bad_vpcs.py:322-358 | a vPC that cannot be fetched fails; a correctly named vPC is skipped with no call; a misnamed one is repaired; a dry run makes no call |
| VpcRepair.DryRunPredictsSuccess | dcnm/interfaces/del_bad_vpcs.py:338-358 | a vPC a real run repairs successfully is also reported as repaired by a dry run, without any call |
| VpcParams.GetVpcPair | dcnm/interfaces/del_bad_vpcs.py:49-59 | a reply without DATA raises KeyError; a dictionary DATA yields the pair exactly when it holds `vpc_pair_sn`; a list or string DATA that contains the key raises TypeError and otherwise yields nothing; any other DATA raises TypeError |
| VpcParams.Contribution | dcnm/interfaces/del_bad_vpcs.py:128-153 | a row without a vpcId value, or naming a switch without a serial, contributes nothing; a switch without a vPC pair raises; otherwise the row is filed under its fabric, pair and vPC id |
| VpcParams.FirstWins | dcnm/interfaces/del_bad_vpcs.py:126-155 | the first exception ends the loop; otherwise every index some row yields is present and holds the entry of the first row that yields it |
| VpcParams.Steps | dcnm/interfaces/del_bad_vpcs.py:128 | one pass per row, in file order |
| VpcParams.CsvToModuleParams | dcnm/interfaces/del_bad_vpcs.py:62-155 | the parameters are built exactly when no row raises; they hold exactly the indices the rows yield, each with the entry of the first row that yields it |
| VpcParams.SkippedStepChangesNothing | dcnm/interfaces/del_bad_vpcs.py:126-155 | a pass that yields nothing can be dropped without changing the result or its order |
| VpcParams.IgnoredRowChangesNothing | dcnm/interfaces/del_bad_vpcs.py:129-141 | a row without a vpcId, or whose switch the controller does not know, can be dropped from the file without changing the parameters |
| VpcTool.Mode | dcnm/interfaces/del_bad_vpcs.py:368 | the mode string names a dry run exactly when `--dryrun` was given |
| VpcTool.Decision | dcnm/interfaces/del_bad_vpcs.py:425 | under `--dryrun` a decision makes no call |
| VpcTool.TallyKeys | dcnm/interfaces/del_bad_vpcs.py:422-436 | over distinct keys, the loop succeeds exactly when every decision does; the sets it fills are disjoint, cover the keys, and place each key by its outcome; with quiet decisions it sends nothing |
| VpcTool.TallyAll | dcnm/interfaces/del_bad_vpcs.py:422-436 | the first exception ends the loop; otherwise skipped, failed and succeeded partition the vPC entries, skipped being exactly the correctly named ones and succeeded exactly the repaired ones; a dry run changes nothing |
| VpcTool.RepairAll | dcnm/interfaces/del_bad_vpcs.py:400-436 | an invalid CSV raises before the controller is asked anything, and a failed parameter build before any vPC is touched; otherwise every entry is tallied by its decision |
| Text.ReplacePcShape | dcnm/interfaces/del_bad_vpcs.py:212-213 | turning "pc" into "PC" keeps the length and the lower-cased text, and leaves no "pc" behind |
| Text.ReplacePcIdempotent | dcnm/interfaces/del_bad_vpcs.py:293-294 | renaming an already renamed name changes nothing |
| Text.ReplacePcFixed | dcnm/interfaces/del_bad_vpcs.py:172 | a name without "pc" is left as it is |
| Text.SplitJoinBack | dcnm/interfaces/del_bad_vpcs.py:258-259 | splitting at a separator and joining back with it gives the original string |
| Text.SplitTwo | dcnm/interfaces/del_bad_vpcs.py:256-257 | a serial pair `A~B` whose halves hold no `~` splits into exactly A and B |
| Patterns.StrPatternsExist | dcnm/heirarchy/DCNM_utils.py:188-193 | a list of string patterns matches a string exactly when some pattern is found in it, and the check then never raises |
| Patterns.PairPatternsExist | dcnm/heirarchy/DCNM_utils.py:170-204 | with the correction, `(key, regex)` patterns match a dictionary exactly when some regex is found in its key's value |
| Patterns.FirstMatchAgree | dcnm/heirarchy/DCNM_utils.py:188-200 | on string patterns the corrected search and the search as written give the same answer for strings and dictionaries |
| SwitchStatus.Mismatches | dcnm/heirarchy/dcnm_switches.py:578-581 | the reported switches are exactly those whose status differs from the target, each with the status it has |
| IfPolicies.ConfigAsWritten | dcnm/interfaces/dcnm_interfaces.py:1522-1524 | a string non-config filter replaces the config filter by a nested list, which is always active; otherwise the config filter is only wrapped |
| Units.SetNvSame | dcnm/interfaces/change_interfaces.py:166-175 | writing back a variable's current value leaves the unit unchanged |
| Units.SetNvTwice | dcnm/interfaces/change_interfaces.py:166-175 | a second write of the same variable overrides the first |
| Runner.Applicable | dcnm/interfaces/interfaces_utilities.py:116-117 | only applicable predicates are kept; on a leaf all of them are; none is kept when none applies |
| HierSwitches.Filtered | dcnm/heirarchy/dcnm_switches.py:361-380 | each kept policy passed the fabric test and every filter and sits under its own serial; every policy that passes both is kept |
| Imports.FromImport | dcnm/interfaces/dcnm_interfaces.py:18-20 | a `from … import` of several names succeeds exactly when the module defines every one; otherwise ImportError names the first one in order it does not define |
| Imports.FlatImportFails | dcnm/interfaces/dcnm_interfaces.py:18-20 | importing `dcnm_interfaces` as written raises ImportError for `DCNMParamaterError`, a name `DCNM_errors` does not define |
| Imports.FlatImportCorrected | dcnm/interfaces/DCNM_errors.py:12-13 | with the class's own name `DCNMParameterError`, every name `dcnm_interfaces` imports is defined |

## Left out

- HTTP transport, `requests` sessions, `urllib3` retries and TLS are not modelled. The controller's replies are oracle parameters: a `Net` answering the n-th request of a run, or a function from request to reply.
- File I/O is not modelled. This covers pickle snapshots, YAML, Excel and CSV parsing, and the plain-text serial files. Their decoded contents are parameters, and a failed read is an `Err` argument.
- Logging, `print`, `pprint` and the spinner thread are left out; they have no effect on results. The timing decorator's exception handler is modelled, because it changes which exception a caller sees.
- `argparse` is modelled only by its outcome. The parsed namespace is a `Cli.Args` record whose options are optional fields, and an absent option raises AttributeError.
- `getpass` prompts are recorded only as a flag on the request that triggered them. The vPC tool's hard-coded login in its `__main__` block is left out.
- Python leaves set iteration order unspecified, so the model takes it as an explicit argument that must enumerate the set.
- Plugin discovery through `importlib` and `inspect` is replaced by a fixed registry of the plugin classes in `plugins.py`.
- `eval` is not modelled. It turns log-level names into levels, and in the error handler it builds exception classes from names; the model uses the named classes directly.
- Regular-expression matching is an oracle (a `search` or `findall` function) rather than a regex engine. Compile flags such as `re.MULTILINE` are folded into that oracle.
- `filterfactory` is not part of this model. The policy filters it builds are one `matchAll` oracle.
- `change_interface` and `config_save` in `del_bad_vpcs.py` are left out: nothing calls them.
- `deploy_switch_config` is an oracle of the deploy loop.
- In the two drivers, the switch-inventory queries (`get_all_switches`, `get_switches_by_serial_number`) are reduced to whether they raised. Those queries are modelled on their own in `HierSwitches` and `IfSwitches`.
- `dcnm/heirarchy/utils.py`, `attr_test.py` and the delegating wrappers of `handler.py` are not part of this model. Neither are the `__main__` blocks, except the dispatch of `change_interfaces.py`, which `FlatChange.ChangeInterfaces` and `HierChange.ChangeInterfaces` model.
- The exception classes of both `DCNM_errors.py` files are one `Error` datatype. Message templates are kept as text with their placeholders unformatted. Python's own exceptions carry their message in CPython 3.8 to 3.10 wording; AttributeError carries only the attribute's name.
- Errors.ExcStr: `str()` of an exception whose argument is a dictionary or list is the empty text, because Python's `repr` of those values is not modelled.
- Waiting on the wall clock (`sleep`, `time`) becomes a finite sequence of polls. A timeout is the end of that sequence.
- SwitchStatus.Wait: is stated over a given sequence of poll results instead of a timeout and sleep interval, because clock time is not modelled.
- Actions.DeployPolicies: models the flat generation. The hierarchy `deploy_interfaces`, `deploy_fabric_config` and `deploy_policies` (`dcnm_deploys.py`) first read `self.timeout`, which a component does not hold; the lookup falls through to the handler, which raises HandlerError, and the timing decorator turns that into UnboundLocalError. Those three calls therefore never succeed, and the model does not state this separately: HierChange.NormalDeploy and HierChange.Fallback deploy through the flat generation's calls, so the runs they describe as completing are ones the hierarchy as written never completes. They also set `self.dcnm_connector.timeout`, a name a component does not define.
- Deploy.Verify: returns the verified and failed sets. The source only logs them and returns nothing.
- VpcParams.Contribution: a truthy vPC pair that is not a string is reported as TypeError. The source raises TypeError only for a list or an object, which cannot be hashed into the tuple key; with a number or `true` it carries on.
- VpcParams.GetVpcPair: reports a `vpc_pair_sn` that is a number or `true` as an unhashable TypeError, where Python would store it.
- VpcTool.RepairAll: takes a stateless controller oracle, so a repair's effect on later queries within the same run is not modelled.
- CsvRows.ValidateCsvRows: reads an empty CSV cell as the empty string, where `csv.DictReader` gives None for a missing trailing cell.
- Cli.ParseInt: accepts only ASCII digits. Python's `int()` also accepts surrounding whitespace, single underscores between digits and non-ASCII decimal digits; the model reports those as ValueError.
- The two generations' `_check_patterns` raise with different message texts. The model keeps each generation's text as a separate constant.
- A missing key and a key holding JSON null read the same in the model's dictionary lookups (`.get` and the `Json` accessors), so the few places where Python would tell them apart by `in` are not distinguished.
- VpcRepair.Lookups: the inventory fetch behind `get_switch_name` is one outcome per fabric. That matches the cache as long as the controller answers a fabric the same way each time: a fetch that succeeded is cached, and one that raised is tried again.
- IfPolicies.Nest: takes the wrapped config argument to be a list, its declared type. A caller passing a tuple would get the tuple wording of IndexError for a short pattern.
- `dcnm_utils`, which both `DCNM_errors.py` and `dcnm_connect.py` import, is not part of this model; Imports takes that import to succeed.

## Findings

| source | as written | input that shows it | evidently intended | confidence | as-written member | corrected member |
|---|---|---|---|---|---|---|
| dcnm/heirarchy/DCNM_connect.py:145-163 | after a successful logout the body deletes `Dcnm-Token`, then the `finally` block deletes it again | an authenticated session whose logout POST returns 200 | remove the tokens once and end unauthenticated | high, not executed | HierConnect.LogoutAfterLogonRaises | HierConnect.LogoutCorrected |
| dcnm/heirarchy/DCNM_utils.py:194-196 | a `(key, regex)` pattern rebinds `pattern` to the compiled regex, then subscripts it | patterns `[("DESC", "uplink")]` against any dictionary | search the regex in the dictionary's value for the key | high, not executed | Patterns.PairPatternRaises | Patterns.CheckPatternsCorrected |
| dcnm/heirarchy/DCNM_utils.py:153-156 | with several value indices the stored value is the tuple of indices | a match `("Eth1/1", "uplink", "FDO1")` with value indices `[1, 2]` | store the selected groups `("uplink", "FDO1")` | high, not executed | HierUtils.DeriveValueStoresIndices | HierUtils.GetInfoFromPoliciesConfigCorrected |
| dcnm/heirarchy/plugins.py:119-124 | the guard tests for `vpc orphan-port enable` but the change writes `vpc orphan-port suspend` (reachable only once the plugin's initialisation is corrected; see the plugins.py:98-100 row) | a trunk-host interface with empty CONF, run through the plugin twice | test for the line it writes, as the flat version does | medium, not executed | Predicates.OrphanHierRepeats | Predicates.OrphanFlatIdempotent |
| dcnm/interfaces/dcnm_interfaces.py:1537-1545 | the config filter first removes the entries that do not match, then the ones that do | any entry with `config=["cdp"]` | keep exactly the entries whose CONF matches | high, not executed | IfPolicies.ConfigFilterEmptiesAll | IfPolicies.CorrectedConfigKeepsMatches |
| dcnm/heirarchy/dcnm_switches.py:328-335 | on a repeat query `for switch in self.switches` walks the serial strings and calls `clear_policies` (or `save_policies`) on them | a second `get_switches_policies` call on an inventory with one switch | clear (or save) each switch's policies | high, not executed | HierSwitches.SecondQueryRaises | HierSwitches.ResetCorrected |
| dcnm/heirarchy/change_interfaces.py:168 | the backout reads `args.description`, which the hierarchy parser never defines | any hierarchy command line run with the backout option | read the selected plugins, as the forward path does | high, not executed | HierChange.BackoutNeverCompletes | HierChange.BackoutCorrected |
| dcnm/heirarchy/plugins.py:66 | the CDP plugin reads `args.mgmt`, which the hierarchy parser never defines | any hierarchy command line selecting the CDP plugin | treat the missing management option as off | high, not executed | HierPlugins.CdpPluginFails | HierPlugins.CdpPluginCorrected |
| dcnm/heirarchy/DCNM_utils.py:59-66 | the timing decorator's handler logs `value`, which is unbound when the wrapped call raised; the flat copy at `dcnm_interfaces.py` lines 66-73 does the same | any decorated deploy or status wait whose body raises, e.g. `deploy_policies` of a set | log the exception and re-raise it unchanged | high, not executed | HierUtils.SpinnerMasks | HierUtils.SpinnerCorrected |
| dcnm/interfaces/dcnm_interfaces.py:388 | `get_vpc_pair` queries through the name `dcnm`, which is bound only when the module runs as a script | `get_switches_vpc_pairs` with one leaf switch not yet recorded | query through the object's own connection, `self.get` | high, not executed | IfSwitches.SwitchesVpcPairsAsWritten | IfSwitches.GetSwitchesVpcPairs |
| dcnm/heirarchy/plugins.py:20-21 | the description plugin passes its config regex as `config=`, but `get_switches_policies` names that parameter `generatedConfig` | selecting the description plugin without a spreadsheet | pass `generatedConfig=` | high, not executed | HierPlugins.DescPluginFails | HierPlugins.DescPluginCorrected |
| dcnm/heirarchy/plugins.py:98-100 | the orphan plugin passes the run's serial list to `get_switches_details`, whose argument checks reject every list (`dcnm_switches.py` lines 456-459); under `--all` that method unpacks each inventory serial as a pair (line 480); the plugin then keeps the handler's `all_switches_details` flag, a bool, as its details table and subscripts it on every call | `-P GetOrphanportChange --serials FDO1` | fetch the details for the serials and keep the details dictionary | high, not executed | HierPlugins.OrphanPluginFails | HierPlugins.OrphanPluginCorrected |
| dcnm/interfaces/dcnm_interfaces.py:18-20 | imports `DCNMParamaterError` from `DCNM_errors`, which defines only `DCNMParameterError` | importing `dcnm_interfaces`, as the flat `change_interfaces.py` and `interfaces_utilities.py` do | import `DCNMParameterError` | high, not executed | Imports.FlatImportFails | Imports.FlatImportCorrected |
