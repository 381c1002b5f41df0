# Soft access point: protocol and data-path verification

This project models the access-point side of a Wi-Fi driver and proves what its state machines, buffer
transformations and fixed-point computations promise. Code that changes things in place is a class or a method with
the source's loops; each such method is proved equal to a function on values, and the lemmas are about those
functions and about whole runs of them.

| component | modules |
|---|---|
| station table: authentication, association, access control, countermeasures, class errors, port | `StationTable`, `StationLaws`, `StationRuns`, `StationOutcomes`, `MacTable` |
| negotiation of WPA and RSN elements, walk over an association request | `Rsn`, `AssocWalk` |
| power-save queues, maintenance and the TIM element | `PowerSave`, `PowerSaveLaws`, `PowerSaveRuns`, `PowerSaveOrder`, `PowerSaveOutcomes`, `PowerSaveTable`, `Tim` |
| aggregation and fragmentation | `Amsdu`, `Fragment` |
| client-WDS proxy table | `LinkList`, `ProxySpec`, `ClientWds` |
| channel choice, QBSS load, 20/40 MHz coexistence | `ChannelSelect`, `QLoad`, `QLoadAlarm`, `QLoadMeter`, `Coex2040` |
| group key renewal | `GroupRekey` |
| transmit power | `Lin2dB`, `TxAlc` |
| octets, options, arithmetic | `Octets`, `Wrappers`, `Arithmetic` |

The configuration is an access point without WPS, P2P, AP-client, WAPI, hostapd, cfg80211, U-APSD, IGMP snooping and
software encryption, with 802.1X and 802.11n; the station table is without client WDS. One handler, with the dispatch
before it, is one atomic step. Random octets, clocks, register readings, received frames, the outcome of memory
allocations and the index the hardware reports for a sender are inputs.

`MacTable.MacTab.PeerPairMsg4` models `PeerPairMsg4Action` of `common/cmm_wpa.c`, lines 1569 to 1640, and
`StationTable.NewPairwise` the request for a new pairwise key at lines 452 to 473 there;
`MacTable.MacTab.EapolStartAction` models `WpaEAPOLStartAction`, lines 141 to 206. What the three come to is stated by
`StationOutcomes.FourthMessageOutcome`, `StationOutcomes.NewKeyOutcome` and `StationOutcomes.StartOutcome`.

Where the code is not what one would expect, the code is modelled and the exact condition is proved:

* TIM: the scan uses 0 for "no octet yet". The element loses stations 1 to 7 exactly when octet 1 is idle and a later
  octet is busy (`Tim.DecodeElement`, `Tim.ExactUnlessFirstOctetLost`).
* Start-up associates entry 0, which stands for groups and is nobody's, and leaves its port open; insertion begins at
  index 1. Above index 0 delivery rests on an authentication and, in a protected BSS, a port release on record; under
  index 0 neither ever is (`StationRuns.DeliveredOnlyFromAssociated`). A frame under index 0 is delivered, in any BSS
  mode, exactly until a confirmation is filed under index 0 (`StationRuns.UnderIndexZero`; `StationRuns.HeardFromStart`
  is the start itself).
* Countermeasures empty the table exactly when every farewell frame can be allocated (`StationRuns.EmptiedExactly`), and
  so does a stop for the associated clients (`StationRuns.StopEmptiesExactly`). A stop cancels the timer and keeps the
  ban: all along a run a timer runs behind every ban if and only if the access point is never stopped in one
  (`StationRuns.RunTimerExactly`). A stranded ban outlasts every run without a counted MIC failure, which only begins
  the timer anew (`StationRuns.StopStrandsBan`, `StationRuns.StrandedStep`).
* A change of the access control list leaves refused stations when an allocation fails or the policy is above 2, which
  checks like a negative list and removes nobody (`StationRuns.AclChangeExact`).
* A frame with an index in range is delivered by the state of the entry under it, client or not
  (`StationRuns.DeliveredInRange`). So above index 0 frames are delivered for clients only if and only if no vacant
  entry is left associated, and at every index if and only if, besides, a confirmation was filed under index 0 since
  the start (`StationRuns.ForClientsExactly`). A deletion keeps the first if and only if the entry it takes was not
  associated (`StationRuns.DeleteLeavesExactly`, with the failing case in `StationRuns.DeletedStillHeard`).
* The class check lets any known station through when the index is out of range (`StationRuns.OutOfRangeIndex`).
* Before the first challenge the zeroed slot stands in for one (`StationRuns.SharedKeyNeedsLastChallenge`). A shared-key
  confirmation takes its entry by index and its station by address. A success is on record under another client's
  name exactly when the last-challenged station's confirmation arrives under that client's index
  (`StationRuns.ConfirmNamesExactly`, `StationRuns.RunNamesExactly`; the input is in `StationRuns.MisfiledOutcome`).
* Under WPA-None, which is no mode of an access point, association does not close the data port
  (`StationRuns.PortClosesExactly`).
* A proxy entry for an invalid station is held twice after an update (`ProxySpec.UpdateKeepsDistinct`). The comment
  at `CLI_WDS_ENTRY_AGEOUT` says 5000 seconds; the code waits 5000 milliseconds in ticks, and so does the model.
* The fragment number field wraps after sixteen fragments (`Fragment.NumbersRun`).
* The logarithm steps back at 2944, 5888 and 47104 and at no other input, by one (`Lin2dB.StepsBackExactly`,
  `Lin2dB.NearlyMonotone`).
* A rekey interval below two installs no key after a rekey. A stop between a rekey and its installation leaves the
  countdown, which after the next start installs the key it finds (`GroupRekey.InstallsExactly`).
* An association that succeeds while packets wait ends power saving and leaves them queued, so later packets overtake
  them. All along a run a station with packets waiting is held back if and only if no step sets its association
  state, or reports it awake under another address, while packets wait (`PowerSaveOrder.HoldingExactly`,
  `PowerSaveOrder.OvertakesExactly`, `PowerSaveOrder.AssociationOvertaken`).
* A new percentage for the QBSS alarm clears its duration and keeps its count of busy updates. It keeps the alarms
  apart, whatever follows, if and only if no alarm lasts at that moment (`QLoadAlarm.ResetKeepsSpacingExactly`).
* A channel switch clears the total of the utilisation and keeps the count of beacons. The value announced at the end
  of that window is exact if and only if the readings lost fit into the remainder of the division
  (`QLoadMeter.UtilisationOverRuns`; `QLoadMeter.SwitchHalvesUtilisation` is a run that announces half).
* The scan before a 40 MHz cell starts covers the channel set of the 20/40 formula, and decides as the formula does,
  if and only if the range fits: where the list cuts the cell short it must cut it on the other side too, and channel
  14 lies off the grid (`Coex2040.RangeIsChannelSet`, `Coex2040.VerdictIsFormulaExactly`; the input with channel 14 is
  `Coex2040.ChannelFourteen`).
* An RSN element of 254 octets is recorded as absent and one of 255 as a single octet (`AssocWalk.RecordedLength`).
* A maintenance pass ages a waiting queue if and only if its station is not stuck, associated and due to leave with no
  memory for its farewell frame (`PowerSaveLaws.PassCountsExactly`).
* A BSS on an unlisted channel is filed behind the list and soils its last channel (`ChannelSelect.UnlistedSoilsLast`).

## Model

| member | source | states |
|---|---|---|
| StationRuns.BanHolds | ap/ap_wpa.c:559-655 | in every run from start-up whose countermeasure allocations succeed, during a ban no client is in the table, no data frame is accepted and no management frame, reassociation included, brings a client back; the timer runs unless the access point was stopped during a ban |
| StationRuns.RunTimerExactly | ap/ap.c:848-852 | all along a run a timer runs behind every ban if and only if no stop falls in one |
| StationRuns.BanChanges | ap/ap_wpa.c:586-641 | a step sets the ban exactly by a counted MIC failure while the timer runs, and lifts it exactly by the timer |
| StationOutcomes.CountermeasuresExactly | ap/ap_wpa.c:559-655 | over every run from start-up the timer is on if and only if some counted MIC failure was reported and neither its execution nor a stop came since; a ban stands if and only if two were reported with neither between them and the timer was not executed since |
| StationOutcomes.FailureOutcome | ap/ap_wpa.c:572-620 | a failure that counts marks its station and always leaves the timer running; the first changes nothing else, the second while it runs begins the ban; one that does not count changes nothing |
| StationOutcomes.TimerOutcome | ap/ap_wpa.c:632-655 | the execution ends ban and timer and clears the marks of clients, and nothing else |
| StationOutcomes.BanningRun | ap/ap_wpa.c:559-622 | a run from start-up ends in a ban: a station authenticates, associates, completes its handshake and fails twice |
| StationRuns.EmptiedExactly | ap/ap_wpa.c:601-612 | the second failure leaves no client if and only if the farewell frame of every client could be allocated |
| StationRuns.StopStrandsBan | ap/ap.c:848-852 | a stop keeps a timer behind the ban if and only if no ban stands; a stranded ban, and the absence of a timer, outlast every run without a counted MIC failure |
| StationRuns.StopEmptiesExactly | mgmt/mgmt_entrytb.c:801-911 | a stop leaves no client if and only if the farewell frame of every associated client could be allocated |
| StationRuns.StrandedStep | ap/ap_wpa.c:559-622 | in a ban without its timer every step leaves the ban, and exactly a counted MIC failure begins the timer |
| StationRuns.AclHolds | ap/ap_assoc.c:741-862 | in every run with policies 0 to 2 and successful allocations every client passes the list of its own BSS, and the refusal after a completed association is never taken |
| StationRuns.AclChangeExact | ap/ap.c:1828-1934 | after a change all clients of the BSS pass if and only if, for policies up to 2, each refused associated client's frame could be allocated, and above 2 nobody was refused |
| StationRuns.AuthenticatedFirst | ap/ap_auth.c:333-398 | in every reachable state a client beyond state 1 has a successful authentication as the last record of its entry since insertion and last challenge; if no confirmation in the run is misfiled it names the client, and all along the run successes name their clients exactly then |
| StationRuns.RunNamesExactly | ap/ap_auth.c:414-529 | all along a run every success on record names its own client if and only if no confirmation is misfiled |
| StationRuns.ConfirmNamesExactly | ap/ap_auth.c:414-529 | a confirmation keeps that if and only if it is not the last-challenged station's, correct and encrypted, under the index of another client of the addressed BSS |
| StationRuns.MisfiledOutcome | ap/ap_auth.c:490-527 | such a confirmation leaves the other client authenticated on a success recorded under the sender's address |
| StationRuns.SharedKeyNeedsLastChallenge | ap/ap_auth.c:490-527 | a confirmation succeeds if and only if it is encrypted, comes from the station last challenged, repeats that challenge and meets an entry of the addressed BSS |
| StationRuns.PortClosesExactly | ap/ap_assoc.c:117-173 | a successful association closes the data filter exactly for the four settled WPA modes and 802.1X; in a BSS with WPA keys the mode always settles on one of them |
| StationOutcomes.DaemonOutcome | ap/ap_wpa.c:879-960 | the daemon's success opens the port or, for an associated WPA station, begins its handshake |
| StationOutcomes.ClosedPort | ap/ap_data.c:4415-4440 | through a closed port EAPOL passes and nothing else |
| StationOutcomes.EapolOutcome | ap/ap_data.c:4398-4480 | an EAPOL frame of an associated entry goes up and moves a station that awaits 802.1X on |
| StationOutcomes.SilentStation | ap/ap_data.c:4421-4440 | a data frame costs a client its entry exactly when it is not associated and the frame its own, or sends encrypted data late through a closed port before its authentication began |
| StationOutcomes.DepartureOutcome | mgmt/mgmt_entrytb.c:521-778 | a disassociation or deauthentication frame takes exactly the client under its index with its address |
| StationRuns.DeliveredOnlyFromAssociated | ap/ap_data.c:4643-5095 | in every reachable state an uplink frame is delivered only outside a ban and for an associated entry; that entry has an authentication as its last record if and only if its index is above 0, and so has, for a non-EAPOL frame of a BSS with WPA keys or 802.1X, a port release since association |
| StationRuns.UnderIndexZero | common/cmm_asic.c:1326-1333 | in every reachable state a frame under index 0, which is no client's, is delivered if and only if it is an uplink frame with data outside a ban and no confirmation was filed under index 0 since the last start |
| StationRuns.HeardFromStart | ap/ap.c:398-437 | right after the start a data frame of any sender under index 0 is delivered with nothing on record |
| StationRuns.OutOfRangeIndex | ap/ap_data.c:3333-3349 | with an index out of range the class check stops only unknown senders; delivery happens if and only if the sender is associated and its port admits the frame |
| StationRuns.DeliveredInRange | ap/ap_data.c:3827-3890 | with an index in range a frame is delivered if and only if it is an uplink frame with data outside a ban and the entry is associated and its port admits the frame; for a client if and only if, besides, the entry is one |
| StationRuns.ForClientsExactly | ap/ap_data.c:3326-3369 | outside a ban, frames filed above index 0 are delivered for clients only if and only if no vacant entry there is left associated; frames in range at all if and only if, besides, a confirmation was filed under index 0 since the start |
| StationRuns.DeleteLeavesExactly | mgmt/mgmt_entrytb.c:719-722 | from there, a deletion leaves no vacant entry above index 0 associated if and only if it takes no associated client; entry 0 it never changes |
| StationRuns.DeletedStillHeard | mgmt/mgmt_entrytb.c:719-722 | deletion keeps the association state, so a frame filed under a deleted client's index is still delivered |
| StationRuns.RunInv | mgmt/mgmt_entrytb.c:65-505 | every reachable table keeps unique addresses, identifier equal to index, entries above index 0 no further than their records, entry 0 nobody's with an open port, and ApMlmeAux equal to the last challenge |
| StationRuns.LimitsHold | mgmt/mgmt_entrytb.c:169-178 | in every reachable state no BSS has more clients than its limit, counted as the set of its clients |
| StationRuns.PopulationCounts | mgmt/mgmt_entrytb.c:169-178 | a BSS's station count is the number of its clients |
| StationRuns.OpenAuthSucceeds | ap/ap_auth.c:333-350 | an open authentication the list lets pass authenticates the station in the addressed BSS, unless it had no entry there and table or BSS is full |
| StationOutcomes.FirstFrameOutcome | ap/ap_auth.c:217-411 | every answer to a first authentication frame: success, challenge with the slot filled, refusal with status 1 or 13 and the loss of the entry, or a full table; a fresh entry has the settings of its BSS |
| StationOutcomes.ConfirmOutcome | ap/ap_auth.c:490-527 | a confirmation authenticates, or is refused with status 15 or 1 and leaves no client under its index |
| StationOutcomes.AssociationOutcome | ap/ap_assoc.c:597-860 | an association request ends with the station associated if and only if SSID and rate fit, its entry is authenticated or associated, and either no element came and the BSS is below WPA or group suite, pairwise suite and AKM agree; mode, cipher, port and handshake step are then as negotiated, and otherwise state and port stay |
| StationOutcomes.AssociationIgnored | ap/ap_data.c:4028-4036 | a request of an unknown station, or during a ban no reassociation, changes nothing |
| StationOutcomes.BuildStatuses | ap/ap_assoc.c:398-557 | each status of the response with exactly the requests that get it |
| StationRuns.ClassGate | ap/ap_data.c:3355-3368 | with an index in range a frame is in error exactly when the entry is not associated, and then the sender's entry under it is gone |
| StationLaws.StepInv | ap/ap_data.c:4028-4036 | every step keeps the invariant, and adds a client only by a first authentication frame, outside a ban, with the list's consent |
| StationLaws.MicFailureInv | ap/ap_wpa.c:559-622 | a second counted failure removes exactly the clients whose frame could be allocated |
| StationLaws.BuildCloses | ap/ap_assoc.c:398-557 | only an authenticated station is associated; in a BSS with WPA keys or 802.1X the port is then closed; a refusal leaves state and port |
| MacTable.MacTab.LookupEntry | mgmt/mgmt_entrytb.c:41-62 | the walk along the hash chain finds the entry of the address if the table has one |
| MacTable.MacTab.constructor | common/rtmp_init.c:3250-3250 | the table after the first start: empty chains, entry 0 associated and nobody's, every other entry zero |
| MacTable.MacTab.ApStartUp | common/cmm_asic.c:1326-1333 | entry 0 is associated again, the rest stays |
| MacTable.MacTab.ApStop | ap/ap.c:794-852 | the clients are removed in order up to the first failed allocation for an associated one; the timer ends, the ban stays |
| MacTable.MacTab.MacTableReset | mgmt/mgmt_entrytb.c:801-911 | the loop over the clients, and the counts of the BSSs |
| MacTable.MacTab.InsertEntry | mgmt/mgmt_entrytb.c:65-505 | the first vacancy from index 1 becomes a fresh client at the end of its chain, unless the table or its BSS is full |
| MacTable.MacTab.DeleteEntry | mgmt/mgmt_entrytb.c:521-778 | an entry goes exactly when it is a client under that index with that address; chain and station count follow, other fields stay |
| MacTable.MacTab.CheckAccessControlList | ap/ap.c:1785-1817 | off, positive list, or negative list for every other policy |
| MacTable.MacTab.UpdateAccessControlList | ap/ap.c:1828-1934 | removes the unwanted clients of the BSS in order, up to the first failed allocation for an associated one |
| MacTable.MacTab.PeerAuthReq | ap/ap_auth.c:217-411 | the whole table after an authentication request: BSS check, list, open or shared key, refusal |
| MacTable.MacTab.PeerAuthConfirm | ap/ap_auth.c:414-529 | the whole table after a confirmation |
| MacTable.MacTab.PeerAssocReq | ap/ap_assoc.c:597-860 | the whole table after an association or reassociation request, and whether the list refused after all |
| MacTable.MacTab.BuildAssociation | ap/ap_assoc.c:398-557 | status and entry after the checks of rate, state, security element and mode |
| MacTable.MacTab.HandleCounterMeasure | ap/ap_wpa.c:559-622 | the whole table, ban and timer after a MIC failure |
| MacTable.MacTab.CmTimerExec | ap/ap_wpa.c:632-655 | the ban and the timer end and every client's mark is cleared |
| MacTable.MacTab.CheckClassError | ap/ap_data.c:3326-3369 | class 2 and class 3 errors, with the deletion they cause |
| MacTable.MacTab.CheckValidDataFrame | ap/ap_data.c:3827-3890 | which frames pass and the index they are filed under |
| MacTable.MacTab.AnnounceDataFrame | ap/ap_data.c:4398-4480 | what goes up, and the deauthentication of a silent station |
| MacTable.MacTab.HandleRxMgmtFrame | ap/ap_data.c:3956-4036 | the gate of the ban and the handler behind it as one step |
| MacTable.MacTab.DaemonSuccess | ap/ap_wpa.c:879-960 | the daemon's success opens the port of a station without WPA, or starts the handshake |
| Rsn.NegotiationExact | ap/ap_wpa.c:479-548 | a well-formed element with lists of any length is accepted if and only if the group suite matches, some pairwise suite is allowed and some AKM is common; statuses 41, 42 and 43 are exact; the first allowed suite in the station's order and the settled mode are recorded |
| Rsn.Decoded | ap/ap_wpa.c:155-178 | the offsets the checks use recover group, pairwise and AKM suites from an encoded element |
| Rsn.FirstOfAccepted | ap/ap_wpa.c:183-296 | the walk over suites stops at the first accepted one |
| Rsn.SettlesMode | ap/ap_wpa.c:88-126 | success in a mixed BSS records a WPA2 mode exactly for element 48, a WPA mode exactly for 221, a pre-shared one exactly in a pre-shared BSS; any other BSS's mode stays |
| Rsn.MisrecordedRefused | ap/ap_wpa.c:479-548 | status 1 is given exactly when the recorded length is not the element's, and the entry stays |
| Rsn.CheckUcast | ap/ap_wpa.c:135-300 | the pairwise loop finds the cipher of the first accepted suite |
| Rsn.CheckAkm | ap/ap_wpa.c:316-358 | an AKM is found exactly when the BSS lists it |
| Rsn.CheckAuth | ap/ap_wpa.c:372-465 | exactly when some offered AKM is listed |
| Rsn.ValidateRsnIe | ap/ap_wpa.c:479-548 | status, mode and cipher together, for any memory contents |
| AssocWalk.WalkIsFold | ap/ap_sanity.c:98-371 | on a well-formed body the walk gives the fold of exactly its elements, in order |
| AssocWalk.VisitsExactly | ap/ap_sanity.c:98-371 | it meets exactly the serialised elements, in order |
| AssocWalk.FirstSsidWins | ap/ap_sanity.c:102-119 | the stored SSID is that of the first SSID element |
| AssocWalk.RatesGathered | ap/ap_sanity.c:120-169 | the rates are those of the last rate element, or the default, with the extended rates behind it, cut at twelve |
| AssocWalk.LastOfEach | ap/ap_sanity.c:185-330 | in a well-formed body that is not refused the RSN element, HT and extended capabilities and Ralink's octet are those of the last element that has one, and WMM is on exactly if some element says so |
| AssocWalk.RefusedExactly | ap/ap_sanity.c:102-330 | an element refuses the request exactly if it is a first SSID over 32 octets or, from WPA on, like an RSN element but under 18 |
| AssocWalk.TakenExactly | ap/ap_sanity.c:375-385 | a request is taken exactly if no element refuses it and it holds an SSID and a rate element |
| AssocWalk.StoredWithinBounds | ap/ap_sanity.c:102-169 | for any octets at most twelve rates and 32 SSID octets are stored |
| AssocWalk.BehindIrrelevant | ap/ap_sanity.c:209-330 | octets behind an element matter only for a vendor element shorter than six octets |
| AssocWalk.RecordedLength | ap/ap_sanity.c:315-321 | for any octets the recorded length of the RSN element is its length if and only if that fits an octet; 256 is recorded as 0 and 257 as 1 |
| AssocWalk.PeerAssocReqCmmSanity | ap/ap_sanity.c:51-385 | the loop computes the walk and the two mandatory elements are required |
| PowerSaveRuns.ExactlyOnePlace | ap/ap_data.c:6179-6221 | in every run a packet brought in once is in exactly one of a power-save queue, a transmit queue, or released |
| PowerSaveRuns.RunKept | ap/ap_data.c:3379-3516 | every run keeps the invariant and accounts for every packet |
| PowerSaveRuns.FirstInFirstOut | ap/ap_data.c:3430-3503 | in every run what waits is a suffix of what waited and arrived, in order of arrival |
| PowerSaveRuns.NoOvertaking | ap/ap_data.c:3430-3503 | while an earlier packet waits, a later one waits behind it at the same distance |
| PowerSaveRuns.HandedInOrder | ap/ap_data.c:3430-3516 | a poll hands over the oldest packet, a wake-up all, in order; More Data is set exactly when packets remain; the TIM bit clears exactly when none do |
| PowerSaveOrder.LeavesInOrder | ap/ap_data.c:528-575 | over every run that keeps a station held back, the packets it puts on transmit queues, waited or not, followed by those still waiting, occur in the order in which they waited or were sent |
| PowerSaveOrder.LeavesInOrderFromStart | ap/ap_data.c:528-575 | so from start-up, among all packets sent to the station |
| PowerSaveOrder.HoldingExactly | ap/ap_assoc.c:1182-1182 | all along a run a station with packets waiting is associated and in power save if and only if no step sets its association state, or reports it awake under another address, while packets wait |
| PowerSaveOrder.OvertakesExactly | ap/ap_data.c:528-575 | a packet sent while others wait gets onto a transmit queue before them if and only if the station is not held back and that queue has room |
| PowerSaveOrder.AssociationOvertaken | ap/ap_assoc.c:1182-1182 | after an association success with packets waiting the next packet overtakes them |
| PowerSaveRuns.EveryReachableState | ap/ap_data.c:3379-3516 | in every run from start-up each packet brought in once is in exactly one place, each queue is a suffix of its station's arrivals, and a waiting station is a client with its TIM bit set |
| PowerSaveOutcomes.SendOutcome | ap/ap_data.c:528-575 | a packet for an associated client in power save joins its queue and sets its TIM bit while fewer than 128 wait, one for any other client joins the transmit queue while that has room, and every other is released |
| PowerSaveOutcomes.IndicateOutcome | ap/ap.c:1492-1535 | a report puts the station into the reported mode, packets waiting or not, and hands over its queue exactly on waking under its own address |
| PowerSaveOutcomes.TurnOutcome | ap/ap.c:1010-1216 | a maintenance turn removes a client exactly when it was never associated in time, or is due to leave with its farewell possible; otherwise its queue is released at the third pass and counted up before |
| PowerSaveOutcomes.ProbeOutcome | ap/ap.c:1010-1130 | a client silent for the keep-alive time is probed, a dozing one by its TIM bit, and counted |
| PowerSaveOutcomes.JoinOutcome | mgmt/mgmt_entrytb.c:390-400 | a station that joins is awake, not associated, with nothing waiting |
| PowerSaveOutcomes.DropOutcome | mgmt/mgmt_entrytb.c:521-778 | a deletion releases the client's packets in order and leaves its TIM bit |
| PowerSaveOutcomes.TransmitOutcome | common/cmm_data.c:1417-1530 | the oldest frame of a transmit queue leaves |
| PowerSaveOutcomes.WaitingRun | ap/ap_data.c:6179-6221 | a run from start-up ends with a packet waiting and announced |
| PowerSaveRuns.GoneAfterThreePasses | ap/ap.c:1203-1216 | in every run no packet stays past the third maintenance pass in which its station is not stuck |
| PowerSaveLaws.PassCountsExactly | ap/ap.c:1161-1216 | a pass over a waiting station releases its queue or counts if and only if the station is not stuck: not both associated and due to leave without memory for the farewell frame |
| PowerSaveRuns.StaysWithoutMemory | ap/ap.c:1161-1200 | a stuck station keeps queue and count and stays stuck; with memory the same pass releases the queue |
| PowerSaveRuns.WaitingIsAnnounced | ap/ap_connect.c:356-398 | in every reachable state a station with packets waiting is announced by the decoded TIM element exactly unless the sentinel lost its octet |
| PowerSaveLaws.StepKept | ap/ap.c:910-1216 | every step keeps: waiting implies marked, first in first out, no packet lost or doubled, counters of waiting queues do not fall |
| PowerSave.MarkedMarks | include/rtmp.h:1376-1387 | the TIM macros add or remove exactly one station |
| PowerSaveTable.PsTable.SendPacket | ap/ap_data.c:528-575 | a unicast packet goes to the power-save queue, a transmit queue, or is released |
| PowerSaveTable.PsTable.InsertPsQueue | ap/ap_data.c:6179-6221 | at the end of the queue with the TIM bit set, or released when 128 wait |
| PowerSaveTable.PsTable.HandleRxPsPoll | ap/ap_data.c:3379-3516 | the whole state after a poll or a wake-up |
| PowerSaveTable.PsTable.PsIndicate | ap/ap.c:1492-1535 | the new mode, the delivery on waking, and the former mode as answer |
| PowerSaveTable.PsTable.CleanupPsQueue | ap/ap.c:880-900 | every waiting packet is released in order |
| PowerSaveTable.PsTable.MacTableMaintenance | ap/ap.c:910-1216 | the whole state after a pass over the table |
| Tim.UpdateBeacon | ap/ap_connect.c:352-398 | the octets written are the element of the scanned range, and no other octet of the buffer changes |
| Tim.DecodeElement | ap/ap_connect.c:356-398 | the element decodes and announces exactly the marked stations other than those the sentinel loses |
| Tim.ExactUnlessFirstOctetLost | ap/ap_connect.c:366-377 | it announces exactly the bitmap if and only if not (octet 0 busy, octet 1 idle, a later octet busy) |
| Amsdu.AmsduFrameTx | ap/ap_data.c:1896-2079 | the octets on the way are header, padding and joined subframes of the packets that could be filled in; the size is their length without header padding, modulo 2^16 |
| Amsdu.RoundTrip | ap/ap_data.c:1950-2010 | parsing the joined subframes gives back every packet's addresses and MSDU, for any number of packets |
| Amsdu.EmittedParses | ap/ap_data.c:1896-2079 | so does parsing what follows the MAC header on the way |
| Amsdu.StartsAligned | ap/ap_data.c:1953-1961 | the padded subframes before any subframe fill a multiple of four |
| Amsdu.JoinedSplit | ap/ap_data.c:1953-1961 | behind the first subframes lies the A-MSDU of the rest |
| Amsdu.TypeRecovered | include/rtmp.h:452-468 | type and data of an encapsulated packet are determined by its MSDU |
| Amsdu.HeaderByType | include/rtmp.h:452-468 | lengths up to 1500 get no header, IPX and AppleTalk the bridge-tunnel header, every other type that of RFC 1042 |
| Fragment.FragmentFrameTx | ap/ap_data.c:2863-3000 | the fragments are the slices of the encapsulated payload, numbered and marked |
| Fragment.Reassembles | ap/ap_data.c:2884-3000 | there are as many as the quotient rounded up, they concatenate to the payload, none exceeds the threshold, More Fragments is clear exactly on the last |
| Fragment.NumbersRun | ap/ap_data.c:2994-2998 | the numbers run from 0 to n-1 if and only if n is at most 16 |
| Fragment.LargestMsdu | ap/ap_data.c:2884-3000 | the fragments of an MSDU up to the largest size are at most 16 at any threshold, and their numbers run from 0 |
| Fragment.EstimateTight | ap/ap_data.c:429-435 | the estimate is the number of fragments, or one more exactly when they all come out full |
| ProxySpec.TableIsBoundedMap | common/client_wds.c:29-193 | over every run with valid stations the table answers as a bounded map, free entries and held addresses add up to the pool, no address is held twice, every chain holds its own addresses |
| ProxySpec.MaintainRefines | common/client_wds.c:171-193 | maintenance removes exactly the expired addresses |
| ProxySpec.UpdateKeepsDistinct | common/client_wds.c:144-168 | an update doubles an address if and only if it is held for an invalid station and an entry is free |
| ProxySpec.ExpiryIsElapsedTime | common/client_wds.c:185-185 | the wrapped comparison is elapsed time for moments less than half the range apart |
| ProxySpec.AfterIsNegative | common/client_wds.c:185-185 | the comparison is the sign of the difference as a signed word |
| ClientWds.ProxyTable.constructor | common/client_wds.c:29-55 | all entries free on the list, all chains empty; no entries when the pool cannot be allocated |
| ClientWds.ProxyTable.Lookup | common/client_wds.c:116-141 | the walk refreshes the first entry of the address and answers with its valid station |
| ClientWds.ProxyTable.Alloc | common/client_wds.c:87-99 | takes the head of the free list |
| ClientWds.ProxyTable.Free | common/client_wds.c:102-113 | puts an entry at the end of the free list |
| ClientWds.ProxyTable.Update | common/client_wds.c:144-168 | refreshes, or appends a free entry to the chain of the address |
| ClientWds.ProxyTable.Maintain | common/client_wds.c:171-193 | every chain keeps its unexpired entries in order; the others return to the free list |
| LinkList.EntryList.Delete | include/link_list.h:64-97 | unlinks one entry, keeping the order of the others |
| ChannelSelect.SelectClearChannel | ap/ap_autoChSel.c:302-601 | the channel is the lowest of least cost under Rule 1, else under Rule 2, else that of Rule 3; it is in a non-empty list |
| ChannelSelect.Accumulate | ap/ap_autoChSel.c:329-405 | the dirtiness is the sum of every BSS's contribution |
| ChannelSelect.SoilsByDistance | ap/ap_autoChSel.c:337-405 | in the lower band a BSS adds 90, 80 or 70 by its strength to its channel and 36 less four times the distance up to four channels away, eight on its extension's side |
| ChannelSelect.SoilsUpper | ap/ap_autoChSel.c:337-405 | in the upper band 32 four numbers away and 28 eight away on its extension's side |
| ChannelSelect.StrongerSoilsMore | ap/ap_autoChSel.c:337-352 | a stronger BSS soils every channel at least as much |
| ChannelSelect.OrderFree | ap/ap_autoChSel.c:329-405 | it depends on the multiset of BSSs only |
| ChannelSelect.ChoiceOrderFree | ap/ap_autoChSel.c:302-601 | so does the survey the rules decide on |
| ChannelSelect.Rule1 | ap/ap_autoChSel.c:427-524 | lowest index of least cost, extension channels included, among the eligible channels scanned before channel 14 |
| ChannelSelect.Rule2 | ap/ap_autoChSel.c:526-581 | the analogous minimum among the channels with many false CCAs |
| ChannelSelect.Rule3 | ap/ap_autoChSel.c:583-601 | the first channel from a random place that is neither skipped nor to be avoided, or the last |
| ChannelSelect.BestUnique | ap/ap_autoChSel.c:507-512 | the minimum is at one index only |
| ChannelSelect.ChoiceOutcome | ap/ap_autoChSel.c:427-581 | Rule 1 and Rule 2 choose among the channels with up to and over a hundred false CCAs, never a skipped, too busy or, at 40 MHz in the upper band, unpaired one, and nothing only if there is none |
| ChannelSelect.CostByChannel | ap/ap_autoChSel.c:480-512 | a 40 MHz cell of the lower band pays for its channel and those four below and above |
| ChannelSelect.NoisyCost | ap/ap_autoChSel.c:526-581 | Rule 2 counts a channel and its partner together |
| ChannelSelect.UnlistedSoilsLast | ap/ap_autoChSel.c:165-178 | what a BSS on an unlisted channel adds to the last listed one |
| QLoadAlarm.AlarmSpacing | ap/ap_qload.c:693-740 | in every run of updates, clears, width changes, resumptions and commands whose new percentages come while no alarm lasts, an alarm needs its threshold's number of consecutive busy active updates since the last clear, and is at least 98 more than that behind every alarm before |
| QLoadAlarm.ResetKeepsSpacingExactly | ap/ap_qload.c:336-349 | a reset keeps alarms that far apart under every continuation if and only if no alarm lasts at that moment |
| QLoadAlarm.AlarmIsPrompt | ap/ap_qload.c:699-717 | an idle alarm fires at the last of the updates it needs |
| QLoadAlarm.SpacingReached | ap/ap_qload.c:693-740 | on a channel that stays busy the first two alarms come exactly that far apart |
| QLoadAlarm.BusyOutcome | ap/ap_qload.c:575-662 | an update is busy exactly when the primary channel, or in a wide cell the secondary, was busy for the percentage of the elapsed time |
| QLoadAlarm.RunLimit | ap/ap_qload.c:238-253 | every run keeps the limit at that percentage |
| QLoadAlarm.AlarmOutcome | ap/ap_qload.c:113-222 | an alarm makes a wide cell narrow and is raised, suspends a narrow one, and is counted |
| QLoadAlarm.RunFollowsAutomaton | ap/ap_qload.c:557-757 | however updates, suspensions, channel switches and commands interleave, the alarms counted are those of the automaton over its own beats |
| QLoadMeter.UtilisationOverRuns | ap/ap_qload.c:666-690 | over every run the value announced at the end of a window is the floor over the readings since the last clear in it, never more than that over the whole window, and equal to it if and only if the lost readings fit into the remainder |
| QLoadMeter.UtilisationExact | ap/ap_qload.c:666-690 | the same for any sequence of readings within the beacon period and clears, for a window up to 16448 ms |
| QLoadMeter.LossExact | ap/ap_qload.c:672-684 | an amount left out leaves the quotient alone if and only if it fits into the remainder |
| QLoadMeter.SwitchHalvesUtilisation | ap/ap_qload.c:764-778 | two full readings with a clear between them are announced as 127 of 255 |
| QLoadMeter.NoWrapExactly | ap/ap_qload.c:672-681 | a full window does not wrap 32 bits if and only if interval times period is at most 16448 |
| QLoadMeter.RunMeters | ap/ap_qload.c:666-690 | over every run the meter sees the readings of the active updates and the clears |
| QLoad.LoadMonitor.StatusClear | ap/ap_qload.c:764-778 | total, flag and count of busy updates go, the count of beacons stays |
| QLoad.LoadMonitor.SetAlarmTimeThreshold | ap/ap_qload.c:876-890 | the whole state after a new percentage; the count of busy updates stays |
| QLoad.LoadMonitor.LoadUpdate | ap/ap_qload.c:557-757 | the whole state after an update |
| Coex2040.RangeIsChannelSet | ap/ap.c:2234-2258 | for the lists of the regions the scanned range is the set of channels within 25 MHz of the cell's middle if and only if it fits |
| Coex2040.VerdictIsFormulaExactly | ap/ap.c:2031-2066 | for the lists of the regions the verdict is the negation of the permitted formula on whatever is heard if and only if the range fits |
| Coex2040.SecondaryMarks | ap/ap_sync.c:936-952 | in the lists of the regions a secondary mark stands on a channel if and only if some 20/40 MHz beacon was heard four numbers below with its extension above, or four above with it below |
| Coex2040.DisturbedIsNotPermitted | ap/ap.c:2031-2066 | where range and channel set agree, for any list whose secondary channels lie four numbers off, the verdict is the negation of the formula over that set |
| Coex2040.ChannelFourteen | ap/ap.c:2234-2258 | with channels 1 to 14 and a cell on 7 and 11 a beacon on 14 disturbs although the formula permits |
| Coex2040.VerdictOrderFree | ap/ap_sync.c:920-973 | it depends on the set of beacons only |
| Coex2040.MarksDecide | ap/ap.c:2327-2342 | the marks disturb the range exactly when the beacons do |
| Coex2040.OverlapScan.OverlappingScan | ap/ap.c:2178-2354 | clearing, marking and checking give that verdict, and falling back also takes the count above its threshold |
| Coex2040.OverlapScan.PeerBeacon | ap/ap_sync.c:918-973 | the marks tell exactly what was heard; foreign beacons are counted in an octet |
| GroupRekey.InstallsExactly | ap/ap_wpa.c:754-857 | a key is installed if and only if the interval is at least two and the execution two back rekeyed, then it is the key and index chosen there, or a countdown left over from before a stop ends before the first rekey, then it is the key found |
| GroupRekey.RestartIsStart | ap/ap_wpa.c:1204-1210 | stopped and started at any moment, the timer is again in a state these statements begin with |
| GroupRekey.RekeysApart | ap/ap_wpa.c:782-797 | rekeys are more than the interval apart |
| GroupRekey.RekeysPeriodically | ap/ap_wpa.c:782-797 | an execution rekeys if and only if its number, counted from one, is a multiple of the interval plus one |
| GroupRekey.IndexAlternates | ap/ap_wpa.c:801-812 | the index stays in {1, 2} and turns over exactly on rekeys with stations present |
| GroupRekey.NeverBeyondRange | ap/ap_wpa.c:782-791 | an interval beyond the counter's range never rekeys and installs at most the key a stop left over |
| GroupRekey.GroupKey.PeriodicExec | ap/ap_wpa.c:754-857 | counters, key and installation after one execution, and which stations start a handshake |
| Lin2dB.Lin2dBdOf | chips/mt7601.c:2382-2430 | both searches end, without loss, and the result is the logarithm function |
| Lin2dB.Normalised | chips/mt7601.c:2388-2413 | the mantissa is the one power-of-two multiple of the input in [2^15, 2^16) |
| Lin2dB.DoublingAdds | chips/mt7601.c:2415-2430 | doubling the input adds 192 or 193 |
| Lin2dB.NearlyMonotone | chips/mt7601.c:2415-2430 | a larger input gives at most one step less |
| Lin2dB.StepsBackExactly | chips/mt7601.c:2415-2430 | between neighbours the result decreases at 2944, 5888 and 47104 and nowhere else |
| Lin2dB.ErrorExactlyAtZero | chips/mt7601.c:2391-2413 | the error code is returned exactly for zero |
| TxAlc.PowerLoop.Adjust | chips/mt7601.c:3063-3111 | saturation, damping, rounding and the register write together |
| TxAlc.CorrectionExact | chips/mt7601.c:3099-3111 | the field becomes the clamped sum with the rounded correction, no other bit moves, a damped correction moves nothing |
| TxAlc.AdjustmentOutcome | chips/mt7601.c:3063-3111 | unless the detector is at its end on that side or the correction would overshoot, the difference of target and measured power, rounded to the nearest step, is added to the field and clamped; otherwise nothing moves |
| TxAlc.DampedExactly | chips/mt7601.c:3081-3089 | a correction is taken back exactly when it and the last are under a step, opposite, and it would overshoot |
| TxAlc.RoundsHalfAway | chips/mt7601.c:3097-3098 | the rounding is to the nearest step, halves away from zero |
| TxAlc.AlternationShrinks | chips/mt7601.c:3081-3095 | an accepted in-band correction of the other sign is not larger, and smaller when it turns positive |
| TxAlc.StopsMoving | chips/mt7601.c:3081-3111 | in an alternating stretch of any length the number of register changes is at most twice the excess of the correction before it over half a step, plus one when that was not negative, and zero when it was below half a step |
| TxAlc.SlowestMovesMost | chips/mt7601.c:3081-3111 | some stretch reaches that bound, wherever the field has room |
| TxAlc.RunKeepsRegister | chips/mt7601.c:3099-3111 | over every run nothing of the register moves but the six-bit field |

## Left out

- Register, RF, BBP, EEPROM and USB access, calibration, delays: foreign hardware effects; readings are inputs.
- Key derivation, MIC, HMAC and software encryption: a message passes its checks or not.
- WPS, P2P, AP-client, WAPI, hostapd, cfg80211, beam forming, U-APSD and IGMP branches: other build configurations.
- Beacon elements other than TIM, wireless events, statistics, debug output, locks.
- Group-addressed power-save traffic (McastPsQueue) apart from its TIM bit.
- Pairwise and group handshake messages other than message 4: `StationTable.Handshake` lets them set the two handshake states to anything.
- PACInquiry, RTMPCheckWPAframe, defragmentation and TKIP MIC check: an index lookup and input flags of the frame; a delivered frame may still be dropped by the last two.
- MacTable.MacTab.LookupEntry: chains are sequences of indices, not linked entries; linked lists are in `LinkList`.
- MacTable.MacTab.PeerAuthReq: does not model the loss of a challenge whose frame cannot be allocated; the challenge counts as drawn.
- MacTable.MacTab.PeerAssocReq: rates, HT capabilities and the frame of the response are not modelled; the security element is an input whose length field is not wrapped to eight bits.
- PowerSaveTable.PsTable.MacTableMaintenance: association deadline, idle timeout and keep-alive time are one setting for all stations.
- PowerSaveTable.PsTable.SendPacket: the checks of port and frame type are one input, and only unicast packets for stations are modelled.
- AssocWalk.PeerAssocReqCmmSanity: does not model the size of the array the RSN element is copied to.
- Fragment.FragmentFrameTx: duration fields and the additions of software encryption are not modelled.
- QLoad.LoadMonitor.LoadUpdate: busy-time histograms and the disconnections of an alarm are not modelled; the channel switch that follows a narrow cell's alarm appears as its clears, a new width and the resumption, in any order and number.
- Coex2040.RangeIsChannelSet: lists that go on into the 5 GHz band are not covered, because the condition is stated for the regions' lists of the lower band.
- GroupRekey.GroupKey.PeriodicExec: renewal by packet count and renewal on a station's request are not modelled.
- Coex2040.OverlapScan.OverlappingScan: intolerant channel reports are not part of the scan, so the formula's OT is the set of channels with a beacon; every beacon with both HT elements counts as 20/40 MHz, as in the code.
- ChannelSelect.SelectClearChannel: the other two selection algorithms and the building of the scan table are not modelled.
- TxAlc.PowerLoop.Adjust: the measurement before the comparison is an input.
