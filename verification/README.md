# CamWatcher device core in Dafny

CamWatcher watches cameras plugged in over USB. It lists their files through
the `gphoto2` tool and copies or moves selected files to a destination
directory, publishing progress on the device as it goes. This project is a
Dafny model of the core of that program, with proofs about it. The core has
two revisions, and both are modelled.

The C++ revision (`src/usbdevice.*`, `src/usbmanager.cpp`):

- **UsbDevice**: a device with a fixed identity (name, bus, port, settings
  key), one of nine lifecycle states with a payload, and an inventory of
  files. `setState` is silent when neither the state nor the payload changes.
- **Enumeration**: the `usb:BBB,PPP` port path, and the `reBus` matcher that
  reads (name, bus, port) from one line of `gphoto2 --auto-detect`.
- **Registry / Refresh**: the manager's device collection keyed by
  (bus, port), and `refreshDevices`. New pairs are appended, announced and
  have their listing started, in output order. A backward sweep then drops
  every device the output no longer names, emitting about-to-be-removed
  followed by removed.
- **Listing**: the parser of `gphoto2 --list-files`. Folder headers set the
  current folder, and file lines whose suffix is on the allow-list become
  inventory entries. The completion step runs back on the controlling thread
  and re-resolves the device by (bus, port).
- **Transfer**: the `downloadFiles` job and `cancelDownload`:
  - cancellation is checked before each file;
  - progress records are published;
  - the first failure ends the job;
  - otherwise the job ends Done with the count of files copied.
- **Hotplug**: the kernel-monitor filter of `listenForEvents`. Its output is
  split on line breaks, each line is matched against the event pattern, and
  every bind or unbind line triggers a refresh.

The Python revision (`usb.py`, `camwatcher.py`):

- **PyUsb**: `DevState`, a `portPath` that also serves as the device's
  equality, an unconditional `setState`, and `runSync`.
- **PyEvents**: `_isUsbEvent` over kernel log lines.
- **PyCopy**: `copyFiles_thread`. Every file is fetched even if an earlier
  fetch failed, and the job ends Error or Done.
- **PyManager**: `connectedDevices`, `refresh` with its add loop and its
  removal loop, `_addDevice`, and the listing callback.
- **CamWatcher**: `copyableFileIndexes`.

**Extensions** holds the suffix allow-list that both revisions share.
**Text** holds the character classes, trimming, lower-casing and decimal
rendering the matchers need.

External effects are turned into inputs:

- A tool run is given as its output lines plus its error text.
- A filesystem check is given as a flag.
- The clock is given as the transfer rate and the formatted duration.
- The slug of a device name is given as a string.

Every operation returns its result together with the signals it emitted, in
order.

## Model

| member | source | states |
|---|---|---|
| UsbDevice.StateOf | src/usbdevice.h:34-45 | the enum value of a state is defined exactly for 0..8, and maps back to the state declared at that position |
| UsbDevice.OrdinalBijective | src/usbdevice.h:34-45 | the nine states have distinct enum values in declaration order, and each value maps back to its state |
| UsbDevice.NewDevice | src/usbdevice.cpp:31-32 | a new device keeps the name, bus and port it was built with; its settings key is the name; it is Idle with an empty payload and no files |
| UsbDevice.ForceState | src/usbdevice.cpp:97-104 | stores the state and payload, keeps identity and files, and always emits exactly one stateChanged carrying the pair |
| UsbDevice.SetState | src/usbdevice.cpp:34-39 | stores the pair and keeps identity and files; emits nothing and leaves the device unchanged when the pair equals the current one; emits exactly one notification otherwise |
| UsbDevice.ResetState | src/usbdevice.cpp:41-43 | leaves the device as it is and re-emits its current state and payload |
| UsbDevice.SetFiles | src/usbdevice.cpp:69-71 | replaces the inventory and changes nothing else |
| UsbDevice.SetStateTwice | src/usbdevice.cpp:34-39 | repeating a setState call changes nothing and is silent, so the pair of calls emits at most once |
| UsbDevice.ResetAfterSetNotifies | src/usbdevice.cpp:34-43 | resetState after setState re-emits the pair that was just set, even when setState itself was silent |
| UsbDevice.SetFilesCount | src/usbdevice.cpp:69-75 | fileCount after setFiles is the number of files given; setting the same files again is idempotent |
| UsbDevice.ApplyUpdates | src/usbdevice.cpp:34-39 | a sequence of setState requests keeps the device's identity and files, ends in the last requested pair, and emits at most one notification per request |
| UsbDevice.ApplyEmitsRequested | src/usbdevice.cpp:34-39 | every notification a sequence of setState requests emits carries a pair that was requested |
| UsbDevice.ApplyDistinctUpdates | src/usbdevice.cpp:34-39 | when consecutive requests differ, every request is emitted, in order |
| Enumeration.CreatePortPath | src/usbmanager.cpp:14-18 | the port path starts with "usb:" and is exactly 11 characters long iff bus and port are both below 1000 |
| Enumeration.PortPathInjective | src/usbmanager.cpp:14-18 | two port paths are equal iff their bus and port numbers are |
| Enumeration.DetectedAt | src/usbmanager.cpp:53-55 | the bus and port read at a match are below 1000, and the line contains their port path |
| Enumeration.MatchBusLine | src/usbmanager.cpp:20-28 | a line matches iff the `\W\W\Wusb:ddd,ddd` tail occurs after at least one character of name; the numbers read are below 1000 and their port path occurs in the line |
| Enumeration.MatchBusLineOfPortPath | src/usbmanager.cpp:49-55 | a line made of a name, three non-word characters and a port path is read back as the trimmed name with that bus and port |
| Enumeration.SnapshotAppend | src/usbmanager.cpp:47-56 | the devices detected in a longer output are those of its prefix followed by the detection on the new line |
| Enumeration.Snapshot | src/usbmanager.cpp:46-55 | a device is detected iff some line of the output matches and names it; at most one device per line |
| Registry.Find | src/usbmanager.cpp:83-89 | returns the first position holding the pair, and nothing exactly when no tracked device has the pair |
| Registry.Lookup | src/usbmanager.cpp:83-89 | finds a tracked device with that bus and port iff the pair is tracked; when pairs are unique it is the only such device |
| Registry.ReplaceKeepsPairs | src/usbmanager.cpp:152-160 | updating one device in place under the same pair keeps the tracked pairs and their uniqueness |
| Registry.PairsAppend | src/usbmanager.cpp:58-63 | appending a device adds exactly its pair, and keeps pairs unique when the pair was new |
| Registry.UniqueCount | src/usbmanager.cpp:91-93 | with unique pairs, deviceCount equals the number of tracked pairs |
| Registry.DeviceCount | src/usbmanager.cpp:91-93 | with unique pairs, deviceCount is the number of distinct pairs tracked |
| Refresh.AddPhase | src/usbmanager.cpp:46-66 | the old devices stay in front untouched; the tracked pairs grow by exactly the detected ones and stay unique; every appended device is new, detected and in the listing state; the events announce the appended devices in order |
| Refresh.Relay | src/usbmanager.cpp:63-64 | a device's notifications are relayed one for one, in order, tagged with its pair |
| Refresh.AnnounceAllEvents | src/usbmanager.cpp:58-65 | the add phase emits no removal, announces only appended pairs, and announces every appended device |
| Refresh.KeepMembers | src/usbmanager.cpp:68-76 | a device survives the sweep iff it was tracked and its pair is still connected |
| Refresh.KeepPairs | src/usbmanager.cpp:68-76 | the surviving pairs are the tracked pairs intersected with the connected ones |
| Refresh.KeepUnique | src/usbmanager.cpp:68-76 | the sweep keeps pairs unique |
| Refresh.SweepFrom | src/usbmanager.cpp:68-76 | the backward sweep leaves exactly the surviving devices, in their original order |
| Refresh.SweepSignals | src/usbmanager.cpp:68-76 | the sweep emits one about-to-be-removed/removed pair per dropped device, each removed carrying the count left at that moment |
| Refresh.SweepAnnouncesOnly | src/usbmanager.cpp:68-76 | only tracked devices whose pair is gone are announced as about to be removed |
| Refresh.SweepAnnouncesAll | src/usbmanager.cpp:68-76 | every tracked device whose pair is gone is announced as about to be removed |
| Refresh.SweepSilent | src/usbmanager.cpp:68-76 | when every tracked pair is still connected the sweep changes nothing and emits nothing |
| Refresh.SweepOnlyRemoves | src/usbmanager.cpp:68-76 | the sweep emits removal signals only |
| Refresh.RefreshDevices | src/usbmanager.cpp:39-77 | a failing detection run aborts; otherwise the tracked pairs become exactly the detected ones, surviving devices are untouched, new ones are freshly listed, additions are signalled before removals, and added and removed pairs are exactly the new and the gone ones; each new pair gets exactly one device-added signal, and the signals end with one about-to-be-removed/removed pair per dropped device, with nothing before them a removal |
| Refresh.Reconciled | src/usbmanager.cpp:39-77 | after the add phase and the sweep, the registry tracks exactly the connected pairs, keeps surviving devices, adds only freshly listed ones, and signals additions (before any removal) and removals for exactly the new pairs and the gone devices |
| Refresh.ReconciledTail | src/usbmanager.cpp:46-76 | announcing the devices the add phase appends and then sweeping: each pair that was not tracked is signalled as added exactly once; the devices kept plus those signalled as removed equal the devices tracked plus those signalled as added; the removal pairs form the tail of the signals, counting down to the final device count |
| Refresh.AddNewUnique | src/usbmanager.cpp:58-65 | the devices the add phase appends hold pairwise distinct pairs, because a pair appended earlier in the pass is found again |
| Refresh.AnnounceAllCounts | src/usbmanager.cpp:58-65 | announcing devices of distinct pairs signals each of their pairs as added exactly once and no other pair, one addition per device, and no removal |
| Refresh.RemovalPairsCounts | src/usbmanager.cpp:68-76 | a run of n removal pairs is 2n signals with n about-to-be-removed signals and no addition |
| Refresh.ReconciledSignals | src/usbmanager.cpp:46-76 | announcements followed by n removal pairs add each new pair once, warn of n removals, add one device per announcement, and end with exactly those removal pairs |
| Refresh.NewsAreFresh | src/usbmanager.cpp:58-65 | every appended device is freshly listed, was not tracked before, and was detected |
| Refresh.ReconciledDevices | src/usbmanager.cpp:46-76 | after both phases the tracked pairs are the connected ones and stay unique; surviving devices are kept unchanged; every device is an old one or freshly listed |
| Refresh.ReconciledOrder | src/usbmanager.cpp:46-76 | no addition signal follows a removal signal |
| Refresh.ReconciledAdded | src/usbmanager.cpp:58-65 | the pairs announced as added are exactly the connected pairs that were not tracked |
| Refresh.ReconciledRemoved | src/usbmanager.cpp:68-76 | the devices announced as about to be removed are exactly the tracked devices whose pair is gone |
| Refresh.RefreshCount | src/usbmanager.cpp:39-93 | after a refresh, deviceCount is the number of distinct detected pairs |
| Refresh.AddPhaseNoop | src/usbmanager.cpp:46-66 | when every detected pair is tracked the add phase changes nothing and emits nothing |
| Refresh.KeepAll | src/usbmanager.cpp:68-76 | when every tracked pair is connected the sweep keeps every device |
| Refresh.RefreshInSync | src/usbmanager.cpp:39-77 | a refresh whose output names exactly the tracked pairs changes nothing and emits nothing |
| Refresh.RefreshIdempotent | src/usbmanager.cpp:39-77 | refreshing again from the same output changes nothing and emits nothing |
| Extensions.R3DNeverAccepted | src/usbmanager.cpp:113-138 | suffixes are lower-cased before lookup, so the upper-case "R3D" entry accepts nothing; ".r3d" files are refused while other entries match in any case |
| Extensions.ListedAccepted | src/usbmanager.cpp:113-138 | every entry of the allow-list other than "R3D" is accepted, as written and in every spelling that lower-cases to it |
| Extensions.AllowListRefuses | src/usbmanager.cpp:113-121 | an empty suffix, or one longer than four characters, is never accepted |
| Listing.MatchFolder | src/usbmanager.cpp:122 | a folder header yields a non-empty path with no quote in it |
| Listing.HeaderLineRoundTrip | src/usbmanager.cpp:122-133 | the header for any count and any non-empty quote-free path reads back that path |
| Listing.MatchFile | src/usbmanager.cpp:123 | a file line yields a non-empty name made of word characters, vertical bars and dots |
| Listing.FileLineRoundTrip | src/usbmanager.cpp:135-144 | a well-formed file line reads back its name and its size as QString::toInt gives it |
| Listing.Suffix | src/usbmanager.cpp:138 | the suffix is the dot-free tail of the name after its last dot, so a name with a dot has a dot just before its suffix; the suffix is empty when the name has no dot |
| Listing.LineEntry | src/usbmanager.cpp:128-149 | a line contributes at most one entry; it contributes one only if it is a file line that is not a header; every file line with an allowed suffix contributes one |
| Listing.ParseAppend | src/usbmanager.cpp:125-150 | parsing streams: a longer output yields its prefix's entries followed by the new line's entry under the folder then in force |
| Listing.ParsedEntriesFromLines | src/usbmanager.cpp:125-150 | an entry is parsed iff one line of the output contributes it, read under the folder in force at that line |
| Listing.ParseListing | src/usbmanager.cpp:125-150 | the listing holds an entry iff some line contributes it, with no folder in force before the first header; at most one entry per line |
| Listing.BeginListing | src/usbmanager.cpp:95-99 | listing puts the device in Init with "Listing files...", keeps its identity and files, and emits at most once |
| Listing.FinishListing | src/usbmanager.cpp:105-161 | a device that is gone is left alone; on a tool error the device goes to Error with the error text; otherwise its inventory becomes the parsed listing, and it goes to Idle with the file count only when it was Init or Idle; the one notification, if any, carries the device's new state and payload; no other device changes |
| Listing.ListFilesLifecycle | src/usbmanager.cpp:95-161 | an uninterrupted successful listing ends Idle with exactly the parsed files, and its completion emits exactly the Idle notification |
| Transfer.LeadingCopied | src/usbmanager.cpp:193-260 | the files copied are the longest prefix of files that were neither cancelled nor failed |
| Transfer.SumKbPrefix | src/usbmanager.cpp:186-191 | the kilobytes copied so far never exceed the total |
| Transfer.KbpsZeroBeforeData | src/usbmanager.cpp:199-202 | the published rate stays 0 until a kilobyte has been copied |
| Transfer.DirPath | src/usbmanager.cpp:217-220 | the path a Qt directory object reports is its path with at most one trailing slash dropped, and dropped exactly when the path is longer than one character and ends in a slash |
| Transfer.OutDirPath | src/usbmanager.cpp:213-220 | the output directory reported for an empty slug is the destination itself (or the root), and for a slug that does not end in a slash the joined path |
| Transfer.FailureUpdate | src/usbmanager.cpp:217-256 | the state request that a failed file issues: a directory that cannot be created (reported as DirPath shows it), a file that did not land, and a failed deletion ask for Error with their texts; a failed fetch asks for Done with the tool's error text |
| Transfer.DownloadFiles | src/usbmanager.cpp:171-269 | the job emits the start text, then one progress record per file it reached, carrying the totals, the counts so far and the rate; it ends with the failure update, or with Done and the count of files copied; the counters are the copied prefix and its kilobytes |
| Transfer.CancelDownload | src/usbmanager.cpp:278-280 | cancelling puts the device in Cancel with an empty payload and keeps everything else |
| Hotplug.SplitLines | src/usbmanager.cpp:286-288 | the parts are non-empty and free of line breaks |
| Hotplug.SplitJoin | src/usbmanager.cpp:286-288 | non-empty break-free lines joined with newlines split back into themselves |
| Hotplug.MatchEvent | src/usbmanager.cpp:285-292 | a match yields a non-empty word action; no match means no position of the line starts an event |
| Hotplug.EventLineAction | src/usbmanager.cpp:285-292 | a well-formed `KERNEL[...] action /path (subsystem)` line reads back its action |
| Hotplug.OnlyBindingTriggers | src/usbmanager.cpp:284-295 | a well-formed monitor line triggers a refresh iff its action is bind or unbind |
| Hotplug.CountTriggers | src/usbmanager.cpp:288-296 | a chunk triggers at most one refresh per line, and none iff no line is a bind or unbind event |
| Hotplug.TriggeredRefreshes | src/usbmanager.cpp:286-296 | a chunk of monitor output triggers at most one refresh per non-empty line, and none iff no line is a bind or unbind event |
| Hotplug.SteadyRepeat | src/usbmanager.cpp:288-296 | a refresh that leaves the registry alone leaves it alone however often it repeats |
| Hotplug.BurstIsOneRefresh | src/usbmanager.cpp:288-296 | a burst of bind and unbind events against unchanged output has the effect of a single refresh |
| PyUsb.StateOfValue | usb.py:26-36 | looking a value up yields the member declared with it |
| PyUsb.ValuesIdentifyStates | usb.py:26-36 | the ten members have distinct values, so none is an alias |
| PyUsb.NewPyDevice | usb.py:43-50 | a new device keeps its name, bus and port; it is Idle with no payload and no files |
| PyUsb.Unplaced | usb.py:43 | a device built without a place has bus and port -1 |
| PyUsb.Format03 | usb.py:76-77 | the `03` format pads non-negative numbers to three digits, and renders negative numbers as '-' followed by at least two digits |
| PyUsb.Format03Injective | usb.py:76-77 | different numbers are formatted differently |
| PyUsb.PortPathInjective | usb.py:76-77 | two port paths are equal iff bus and port are |
| PyUsb.EqualIffSamePlace | usb.py:97-98 | two devices are equal iff they have the same bus and port; name, state and files play no part |
| PyUsb.EqualIsSamePlace | usb.py:97-98 | equality is sameness of (bus, port), for all devices at once |
| PyUsb.UnplacedAllEqual | usb.py:76-98 | every device built without a place has port path "usb:-01,-01", so all of them are equal |
| PyUsb.SetState | usb.py:52-59 | stores the pair and always emits it, even when nothing changed; identity and files are kept |
| PyUsb.SetStateTwiceEmitsTwice | usb.py:52-59 | the same setState twice emits twice |
| PyUsb.SetFilePaths | usb.py:91-95 | replaces the paths, fileCount is their number, and nothing else changes |
| PyUsb.SplitLines | usb.py:115 | the lines are break-free, and there are none iff the text is empty |
| PyUsb.SplitTerminated | usb.py:115 | text written one line per line feed splits back into its lines |
| PyUsb.RunSync | usb.py:107-115 | the call fails with the error text iff the tool wrote any; otherwise it yields the output's lines |
| Utils.HasError | src/utils.h:14 | a run failed exactly when its standard error text is non-empty |
| PyEvents.IsUsbEvent | usb.py:268-272 | a line yields the add tag iff the new-device pattern occurs; it yields the remove tag iff the disconnect pattern occurs and the new-device pattern does not; it yields nothing otherwise |
| PyEvents.TriggersRefresh | usb.py:264-266 | a message triggers a refresh iff the new-device or the disconnect pattern occurs in it |
| PyEvents.KernelLineMatches | usb.py:19-21 | the message of a `usb-B-P:` kernel line is found by the pattern |
| PyEvents.NewDeviceTriggers | usb.py:264-272 | a new-device kernel line yields the update tag and triggers a refresh |
| PyEvents.DisconnectTriggers | usb.py:264-272 | a disconnect kernel line triggers a refresh, and yields the remove tag unless it also holds a new-device message |
| PyCopy.CopyFiles | usb.py:178-194 | one "Copying k / total" state per file, in order; every file is attempted; the succeeded and failed lists split the indexes by outcome, in order; the job ends Error with the failure count iff a fetch wrote to stderr, otherwise Done with the count copied |
| PyCopy.FetchAll | usb.py:182-189 | the loop visits every file whatever the earlier outcomes, and records each index in the list its outcome names |
| PyCopy.OutcomesSplit | usb.py:180-189 | every index lands in exactly one of the two lists |
| PyCopy.NoFailures | usb.py:191-194 | nothing failed iff no fetch wrote to stderr |
| PyManager.MatchConnected | usb.py:147-155 | a line matches iff `usb:digits,digits` starts somewhere after its first character on its first line |
| PyManager.MatchConnectedOfLine | usb.py:146-157 | a line made of a name and `usb:B,P` is read back as the name under `str.strip` (str.isspace whitespace, U+001C to U+001F included) with the decimal values of B and P |
| PyManager.ConnectedAppend | usb.py:146-157 | the devices detected in a longer output are those of its prefix followed by the device on the new line |
| PyManager.Connected | usb.py:146-157 | a device is listed iff some line of the output matches and names it; at most one device per line |
| PyManager.FirstEqual | usb.py:233 | finds the first device equal to the given one, comparing places, and nothing iff no device is equal |
| PyManager.IsInIffPlace | usb.py:233 | `in` on the device list holds iff the place is among the list's places |
| PyManager.ListFiles | usb.py:160-162 | listing puts the device in Init with no payload and emits that |
| PyManager.AddDevice | usb.py:240-244 | the device is appended and announced, goes Idle with "Discovering files..", then goes to Init for its listing |
| PyManager.OnFilesRetrieved | usb.py:246-249 | the paths are stored, the device goes Idle with "Found n files", and an update is announced |
| PyManager.ListFilesThread | usb.py:165-171 | the listing callback sees the same device |
| PyManager.ListingLifecycle | usb.py:160-171 | a failed listing leaves the added device in Init and emits nothing; a successful one ends Idle with the output's lines as paths |
| PyManager.AddLoop | usb.py:232-234 | the old devices stay in front; the places grow by exactly the detected ones; only untracked places are announced; nothing is removed |
| PyManager.RemoveFirst | usb.py:251-253 | `list.remove` drops the FIRST device equal to the given one and keeps the others in their order; the list is one shorter, and every device of another place stays |
| PyManager.RemoveFirstTakesOne | usb.py:251-253 | exactly one device of the given place is taken out: the result plus that device is the original list as a multiset |
| PyManager.RemoveLoop | usb.py:236-238 | the removal loop as written keeps every detected device and removes only undetected ones |
| PyManager.RemoveStale | usb.py:236-238 | the corrected removal keeps a device iff it is detected, and announces each removed one |
| PyManager.RefreshAsWritten | usb.py:230-238 | refresh as written raises on tool error; it tracks every detected place and no new place beyond them; it announces only untracked places as added and only undetected ones as removed |
| PyManager.Refresh | usb.py:230-238 | corrected refresh: the tracked places are exactly the detected ones |
| PyManager.StaleDeviceSurvives | usb.py:236-238 | with two tracked devices that are both gone, the loop as written keeps the second, and the corrected loop keeps neither |
| CamWatcher.BaseName | camwatcher.py:149 | the base name is the tail of the path after its last '/': a '/'-free suffix of the path preceded by a '/' unless it is the whole path |
| CamWatcher.Extension | camwatcher.py:153 | the extension holds no dot, and it is empty when the name has no dot |
| CamWatcher.CopyableFileIndexes | camwatcher.py:147-157 | yields position i+1 iff path i is copyable, only positions within range, in increasing order |
| CamWatcher.Copyable | camwatcher.py:149-155 | a path is copyable iff its base name has a dot and its lower-cased extension is a listed entry other than "R3D"; such an extension has one to four characters |
| CamWatcher.CopyableByExtension | camwatcher.py:147-157 | a file "stem.ext" in any folder, whose stem is not all dots, is yielded iff ext is allowed in some letter case |
| CamWatcher.CopyableBareName | camwatcher.py:147-157 | a bare file name "stem.ext" with no folder, whose stem is not all dots, is yielded iff ext is allowed in some letter case |
| CamWatcher.HiddenFileNotCopyable | camwatcher.py:149-155 | a hidden file such as ".jpg" is never yielded |
| CamWatcher.NoDotNotCopyable | camwatcher.py:150-151 | a name without a dot is never yielded |
| CamWatcher.R3DNotCopyable | camwatcher.py:153-155 | an .R3D file is never yielded, whatever its letter case |
| Text.Trim | src/usbmanager.cpp:53 | the trimmed text is a slice of the input with only QChar::isSpace whitespace cut off before and after it, and it neither starts nor ends with such whitespace; it is empty for blank text and unchanged for text that neither starts nor ends with whitespace |
| Text.PyStrip | usb.py:153 | the stripped text is a slice of the input with only str.isspace whitespace cut off before and after it, and it neither starts nor ends with such whitespace; it is empty for blank text and unchanged for text that neither starts nor ends with whitespace |
| Text.StripsAgree | usb.py:153 | on text without U+001C to U+001F, `str.strip` gives the same result as QString::trimmed |
| Text.UnitSeparatorStripped | usb.py:153 | a leading U+001F is removed by `str.strip` and kept by QString::trimmed |
| Text.ToLower | src/usbmanager.cpp:138 | lower-casing maps each character and leaves no upper-case letter |
| Text.ToInt32 | src/usbmanager.cpp:144 | QString::toInt gives the decimal value when it fits in 32 bits and 0 otherwise |
| Text.Pad3 | src/usbmanager.cpp:15-16 | three-digit zero padding keeps the value, and is exactly three characters iff the number is below 1000 |
| Text.NatToString | src/usbmanager.cpp:159 | decimal rendering gives digits whose value is the number, with no leading zero except for 0 itself |

## Left out

- Threads, `invokeOnMainThread` and `QThread` are not modelled. Each job is split into the half that runs at the call and the half that runs on completion. Races between the halves (such as a device removed or re-stated mid-job) appear only as the state the completion observes.
- Running the tools (`runCmd`, `subprocess`) is not modelled. Each run becomes its output text or lines together with its error text, given as input.
- `splitLines` (C++) is not part of this model. The C++ matchers receive the output already cut into lines.
- The filesystem is not modelled. Directory creation and the existence check of a fetched file are flags of each file step.
- Destination paths and `QSettings` are not modelled. The destination path is an input, and the Python destination is not modelled.
- `qSlugify` is not modelled; the slug of the device name is an input.
- The clock is not modelled. The float throughput `copiedKbs / elapsed` is given per file as a natural-number rate. The formatted `hh:mm:ss` duration is an input string.
- Transfer.DownloadFiles: the kilobyte counters are unbounded naturals, so 32-bit overflow of `int` sums is not modelled.
- Transfer.DownloadFiles: `ups` lists the state requests in the order the worker thread issues them, not the order the device applies them. A directory that cannot be created is reported by a direct `setState(Error, …)` on the worker thread (src/usbmanager.cpp:219-222). Every other request goes through `invokeOnMainThread` (src/usbmanager.cpp:205-210, src/utils.cpp:8-19), which queues it for the main thread's event loop. So the progress request issued just before that Error can be applied after it, leaving the device in Copy. The model does not promise which state the device ends in.
- Transfer.DirPath: only the Unix behaviour of the directory object is modelled. Windows drive roots such as `C:/` and native separators are not.
- Character classes `\w`, `\d` and lower-casing are ASCII. On `str`, Python's `\w` and `\d` are Unicode classes and match more characters than the model; `\W` matches fewer. Python's `str.lower` and Qt's `QString::toLower` also work on all of Unicode, and agree with the model on ASCII text only. QRegularExpression's `\w`, `\d` and `\s` are ASCII-only by default, so the C++ matchers are modelled exactly. Whitespace is modelled in full, as two sets: QChar::isSpace for `QString::trimmed`, and str.isspace for `str.strip`, which also removes U+001C to U+001F.
- Listing.MatchFile: matching of `reFile` is possessive at the name's boundaries. A line that needs the regex engine to backtrack into the name may be read differently from QRegularExpression.
- `runGen`, the `journalctl` reader thread and `_processMessagesThreaded` are not modelled; they are I/O loops.
- The user interface (`camerawindow`, `cameralistwidget`, `camerawidget`) is not modelled, apart from `copyableFileIndexes`.
- `readlsusb.py` is not modelled.
- Python's object sharing is not modelled. Lists hold device values, and a device is appended with the state it has once `_addDevice` returns.
- The `Removed` state is declared but never set by the core, so nothing about it is modelled beyond its place in the enum.
- `destFilePath`/`setDestFilePath`, `UsbFile` accessors and `copyableUsbFiles` are not modelled: they are storage access or declared without a body in the core.
- In `src/usbdevice.h` the payload type is a string, while `downloadFiles` passes a progress record. The model's payload is a text or a progress record.

## Modelling notes

- A failed fetch in `downloadFiles` ends the device in **Done** with the tool's error text (src/usbmanager.cpp:229-233), not in Error; see Transfer.FailureUpdate.
- `deviceRemoved` carries no argument (src/usbmanager.h:37). The model tags each removal with the count left at that moment, which is the value observers read back through `deviceCount` (src/usbmanager.cpp:91-93).

## Findings

| source | as written | input that shows it | evidently intended | confidence | as-written member | corrected member |
|---|---|---|---|---|---|---|
| usb.py:236-238 | the removal loop iterates over `self._devices` while `_removeDevice` removes from that same list, so the device that moves into a freed slot is skipped | two tracked devices (1,1) and (1,2), then a refresh whose detection output is empty: (1,1) is removed and (1,2) is still tracked | every tracked device that is no longer detected is removed, for instance by iterating over a copy | high (not executed) | PyManager.RefreshAsWritten | PyManager.Refresh |
