# hpsum firmware update, modelled in Dafny

This project models the hpsum controller of proliantutils. It covers the
code that updates a ProLiant server's firmware from an SPP (Service Pack for
ProLiant) ISO image. The update validates the image URL, swaps the iLO's
CDROM virtual media for the image, and waits for the operating system to
see the disk. It then finds the disk by its `SPP*` label, checks the
device's checksum, mounts it on a fresh temporary directory and runs
`hpsum --s --romonly`. Last, it unmounts and removes the directory.
A failed hpsum run is classified by its exit code and, for codes 0, 1 and
253, by the hpsum log. The result is a one-line status summary.

Modules, leaf first:

- `Wrappers` (`wrappers.dfy`): `Option` and `Result`.
- `PyLib` (`pylib.dfy`): the Python semantics the controller relies on.
  That is `str.find`, `in` on strings, slicing with negative and
  out-of-range bounds, `re.split` on a literal pattern, `str.join`,
  `str.strip()`, `str()` of a count and `os.path.join`.
- `HpsumOutput` (`hpsum_output.dfy`): the exit-code table and the log
  classifier `_parse_hpsum_ouput`. `Summary` is its specification and
  `ParseHpsumOutput` is the loop as written.
- `HostModel` (`host.dfy`): the side of the world the update acts on. It
  holds the iLO's virtual media slots, the temporary directories and the
  mount points. Every action is recorded in a trace. `Step` gives the
  effect of one action and `Replay` the effect of a whole trace. The class
  `Host` holds the state and the trace. Its invariant is that the current
  state is the initial state replayed through the trace.
- `HpsumExecutor` (`hpsum_executor.dfy`): `_execute_hpsum`. This covers the
  `--c` argument, the run, returning a classified exit code, and raising on
  an unclassified one.
- `HpsumUpdate` (`hpsum_update.dfy`): `update_firmware`. `PlanWith` gives the
  whole update as a value: the actions in order and the outcome. It takes
  the parsed component list and the executor's result as parameters.
  `Plan` fills those in with `ComponentList` and `ExecutorResult`. The
  method `UpdateFirmware` takes the same steps on a `Host`. It is proved to
  leave exactly `Plan`'s trace and to return `Plan`'s result. The lemmas
  about ordering, cleanup and media are proved over `PlanWith`, so they hold
  whatever the executor returns.

Every collaborator's behaviour is an input, the `Outcomes` record. That
covers the URL validator, the iLO eject and insert calls, and the by-label
directory listing with the paths that exist. It also covers the checksum
verifier, the name `mkdtemp` picks, `mount`, the hpsum process outcome, the
log file it leaves (or its absence), and `umount`.

Where the code and its documented intent differ, the model follows the code.
Each point below is a property proved about the model of the code as
written, named by its lemma; none of it comes from running the program:

- `_execute_hpsum` has no `return` after a run that exits normally, so it
  returns `None`, not the tool's output (`CompletedRunReturnsNothing`).
- The label scan keeps overwriting the device path, so the last `SPP*` entry
  wins, not the first (`LastSppIsLastMatch`).
- When no entry matches, `vmedia_device_file` is never bound. Python then
  raises `UnboundLocalError`, not the "Unable to find the virtual media
  device" operation error. The model has a separate failure value,
  `UnboundDeviceName`, for this. The "Unable to find" error is raised only
  for a matched path that does not exist (`DeviceScanFailures`).
- `umount` sits inside the `try` block after `_execute_hpsum`. An
  unclassified exit code therefore skips it. A `umount` that runs and fails
  (`trycmd` swallows the error) does not unmount either. In both cases the
  image stays mounted.
  `shutil.rmtree(..., ignore_errors=True)` cannot remove a directory that is
  still a mount point, so the temporary directory is left behind as well
  (`LeftoversAfterUpdate`). The temporary directory therefore does not
  disappear on every outcome.
- The update never ejects the image again: the CDROM slot still holds the
  URL afterwards (`MediaAfterUpdate`).
- The exit-code table has an entry for 0, but `processutils.execute` raises
  only for a non-zero exit code and `_execute_hpsum` returns `None` after a
  normal run (`CompletedRunReturnsNothing`). So the "installed successfully"
  summary is never produced through `_execute_hpsum`. `ParseHpsumOutput`
  still classifies code 0 as written, and `Failed(0, _)` does not arise from a
  real run.

## Model

| member | source | states |
|---|---|---|
| HpsumOutput.ParseHpsumOutput | proliantutils/hpsum/hpsum_controller.py:73-115 | The counting loop computes `Summary`. Code 3 gives "Summary: " plus the table's text. A log-based code without a log gives "UPDATE STATUS: UNKNOWN". There is a result exactly when the code is in the table. |
| HpsumOutput.NotInstalledIgnoresLog | proliantutils/hpsum/hpsum_controller.py:87-88 | Exit code 3 gives the fixed "already up-to-date" summary whatever the log holds, and also without a log. |
| HpsumOutput.ClassifiedExactlyTableCodes | proliantutils/hpsum/hpsum_controller.py:87-115 | A classification exists exactly for the codes 0, 1, 3 and 253. |
| HpsumOutput.MissingLogIsUnknown | proliantutils/hpsum/hpsum_controller.py:90-115 | Codes 0, 1 and 253 without a log file give the "UPDATE STATUS: UNKNOWN" sentinel. |
| HpsumOutput.ClassificationIsNonEmpty | proliantutils/hpsum/hpsum_controller.py:64-66 | Every classification is a non-empty string, so `if result:` amounts to a test for None. |
| HpsumOutput.CountsPartition | proliantutils/hpsum/hpsum_controller.py:99-106 | Each non-empty segment counts once, as a success or as a failure. Empty segments count as neither. As multisets, the successes and the failures together are exactly the non-empty segments. |
| HpsumOutput.SucceededMembers | proliantutils/hpsum/hpsum_controller.py:101-106 | A segment counts as a success exactly when it contains "Success". |
| HpsumOutput.FailedMembers | proliantutils/hpsum/hpsum_controller.py:101-104 | A segment counts as a failure exactly when it is non-empty and lacks "Success". |
| HpsumOutput.LogSummary | proliantutils/hpsum/hpsum_controller.py:108-113 | With a log, the summary is the status line with the code's text. Its total is the number of non-empty segments, and the total equals successes plus failures. |
| HpsumOutput.RegionBetweenMarkers | proliantutils/hpsum/hpsum_controller.py:95-97 | When both markers are found in order, the counted region is exactly the text between them. |
| HpsumOutput.RegionWithoutExitMarker | proliantutils/hpsum/hpsum_controller.py:95-97 | Without "Exit status:" the slice's stop is -1, so the region ends one character before the log does. |
| HpsumOutput.RegionWithoutDeployedMarker | proliantutils/hpsum/hpsum_controller.py:95-96 | Without "Deployed Components:" the start is -1 + 20, so the region starts at index 19. |
| HpsumOutput.TwoSegmentExample | proliantutils/hpsum/hpsum_controller.py:101-106 | A "Success" segment and a "Failed" segment count as one success and one failure. |
| HpsumOutput.RegionCrossed | proliantutils/hpsum/hpsum_controller.py:95-97 | When "Exit status:" is found before the end of "Deployed Components:", the region is empty and splits into one empty segment. |
| HpsumOutput.CrossedMarkersSummary | proliantutils/hpsum/hpsum_controller.py:95-113 | With crossed markers, a log-based exit code reports "Total: 0 Success: 0 Failed: 0". |
| HpsumOutput.FramedRegion | proliantutils/hpsum/hpsum_controller.py:95-97 | For a log that opens with "Deployed Components:" followed by text without an "E" and then "Exit status:", the region is exactly that text. |
| HpsumOutput.TwoSegmentLog | proliantutils/hpsum/hpsum_controller.py:95-101 | Two single-line component entries separated by a blank line between the markers split into exactly those two segments. |
| HpsumOutput.OneSuccessOneFailure | proliantutils/hpsum/hpsum_controller.py:99-113 | A log whose segments are one success and one failure gives a status line with 1 success and 1 failure. |
| HpsumOutput.TwoComponentLog | proliantutils/hpsum/hpsum_controller.py:95-113 | A concrete log listing " nic: Success" and "bios: Failed" makes exit code 0 report "Total: 2 Success: 1 Failed: 1.". |
| PyLib.Find | proliantutils/hpsum/hpsum_controller.py:95-97 | `str.find` gives the lowest index where the pattern occurs, and -1 exactly when it occurs nowhere. |
| PyLib.Contains | proliantutils/hpsum/hpsum_controller.py:103 | `in` on strings holds exactly when the substring occurs at some index. |
| PyLib.Slice | proliantutils/hpsum/hpsum_controller.py:95-97 | Slicing never grows the string, and with in-range bounds it is the plain subsequence. The result is empty exactly when the normalised start is not below the normalised stop. A negative stop counts from the end. |
| PyLib.JoinSplit | proliantutils/hpsum/hpsum_controller.py:101 | Joining the pieces of `re.split` with the separator gives back the original text. |
| PyLib.SplitPiecesAvoidSeparator | proliantutils/hpsum/hpsum_controller.py:101 | No piece of a split contains the separator. |
| PyLib.LeftmostPieces | proliantutils/hpsum/hpsum_controller.py:101 | Every piece but the last, followed by the separator, has its first occurrence of the separator right after the piece. So the split cuts at the leftmost match each time, without overlaps. |
| PyLib.SliceBetween | proliantutils/hpsum/hpsum_controller.py:95-97 | Slicing from the end of a leading marker to the first occurrence of a second marker gives the text between them, when that text and the first marker lack the second marker's first character. |
| PyLib.Strip | proliantutils/hpsum/hpsum_controller.py:189 | Neither end of a stripped string is whitespace. |
| PyLib.StripRemovesOnlyOuterSpace | proliantutils/hpsum/hpsum_controller.py:189 | `strip()` keeps a contiguous slice and drops only whitespace before and after it. |
| PyLib.NatToStringRoundTrip | proliantutils/hpsum/hpsum_controller.py:108-113 | The decimal text of a count reads back as the count. |
| PyLib.NatToStringInjective | proliantutils/hpsum/hpsum_controller.py:108-113 | Different counts print differently. |
| PyLib.PathJoinParts | proliantutils/hpsum/hpsum_controller.py:185 | `os.path.join` ends with the second part and starts with the first part, unless the second part is absolute. It puts one slash between them when the first part lacks one. When the first part is empty or ends in a slash and the second part is relative, the result's length is the sum of the two lengths. |
| HostModel.Step | proliantutils/hpsum/hpsum_controller.py:148-195 | Each action's effect. A successful eject removes the slot, and a successful insert puts the URL in it; every other slot keeps its URL. `mkdtemp` adds exactly its directory. A successful `mount` adds exactly its mount point and a successful `umount` drops exactly it. `rmtree` removes exactly its directory unless that is still a mount point, and then changes nothing. Every part of the state an action does not touch stays as it was. |
| HpsumExecutor.CommandArgIsFlagged | proliantutils/hpsum/hpsum_controller.py:59 | The command argument is empty without components and is otherwise " --c " before each component, in order. |
| HpsumExecutor.FlagJoin | proliantutils/hpsum/hpsum_controller.py:59 | " --c " followed by the " --c "-join is the flag before every component. |
| HpsumExecutor.ExecutorResult | proliantutils/hpsum/hpsum_controller.py:61-70 | The executor raises only `HpsumOperationError`. |
| HpsumExecutor.ExecuteHpsum | proliantutils/hpsum/hpsum_controller.py:44-70 | Runs hpsum once with those arguments and changes nothing else. It returns the executor's result for the process outcome and the log. |
| HpsumExecutor.CompletedRunReturnsNothing | proliantutils/hpsum/hpsum_controller.py:61-62 | A run that exits normally makes the executor return None. |
| HpsumExecutor.ClassifiedRunIsReturned | proliantutils/hpsum/hpsum_controller.py:63-66 | A failed run with a table code is returned as its classification, code 253 included. It is not raised. |
| HpsumExecutor.UnknownExitCodeRaises | proliantutils/hpsum/hpsum_controller.py:67-70 | Any other exit code raises `HpsumOperationError`. The message is "Unable to perform hpsum firmware update on the node. Error: " plus the process error. |
| HpsumUpdate.LastSppIsLastMatch | proliantutils/hpsum/hpsum_controller.py:155-157 | The scan finds nothing exactly when no entry matches `SPP*`. Otherwise it finds a matching entry with no match after it. |
| HpsumUpdate.FindVmediaDevice | proliantutils/hpsum/hpsum_controller.py:154-157 | The listing loop leaves the by-label path of the last `SPP*` entry bound, or nothing. |
| HpsumUpdate.ScanExamples | proliantutils/hpsum/hpsum_controller.py:154-157 | With one SPP entry that entry is found. With two, the later one is found. With none, nothing is bound. |
| HpsumUpdate.ComponentListRoundTrip | proliantutils/hpsum/hpsum_controller.py:186-189 | The parsed component list, joined back with commas, is the stripped field. No component contains a comma. |
| HpsumUpdate.MountAndExecute | proliantutils/hpsum/hpsum_controller.py:174-193 | The try block on the host: mount, run, and unmount only after a normal return. It leaves exactly `Mounted`'s actions and returns its result. |
| HpsumUpdate.UpdateFromScan | proliantutils/hpsum/hpsum_controller.py:154-195 | Scan, existence check, checksum, `mkdtemp`, try block and removal on the host. It leaves exactly `PlanFromScan`'s actions and returns its result. |
| HpsumUpdate.UpdateFirmware | proliantutils/hpsum/hpsum_controller.py:118-197 | `update_firmware` on the host. It appends exactly `Plan`'s actions to the trace, its new state is the old state replayed through them, and it returns `Plan`'s result. |
| HpsumUpdate.MountedTraces | proliantutils/hpsum/hpsum_controller.py:174-193 | The try block: a failed mount alone, a mount and run followed by a raise, or a mount, run and umount. |
| HpsumUpdate.PlanTraces | proliantutils/hpsum/hpsum_controller.py:118-197 | The exact action sequence for every way the update can go. |
| HpsumUpdate.PlanResults | proliantutils/hpsum/hpsum_controller.py:118-197 | The exact outcome for every way the update can go, including each error and the mount error's message. |
| HpsumUpdate.ValidationComesFirst | proliantutils/hpsum/hpsum_controller.py:135-139 | URL validation is the first action. When it fails, it is the only action, the host is unchanged and `HpsumOperationError` carries its message. |
| HpsumUpdate.NoMediaCallsAfterSwap | proliantutils/hpsum/hpsum_controller.py:148-197 | After a passing swap, the update goes on from the scan and makes no further virtual media call. |
| HpsumUpdate.MediaSwapOrder | proliantutils/hpsum/hpsum_controller.py:148-149 | The only eject is of CDROM, as the second action. The only insert puts the URL in CDROM, as the third action, and only after a successful eject. |
| HpsumUpdate.ReachedTraces | proliantutils/hpsum/hpsum_controller.py:153-195 | The action sequence, element by element, for every run that reaches `mkdtemp`. |
| HpsumUpdate.ChecksumBeforeMount | proliantutils/hpsum/hpsum_controller.py:165-177 | `mkdtemp` comes only right after a passing checksum of the scanned device. The mount comes only right after `mkdtemp`, on that directory. |
| HpsumUpdate.HpsumRunsOnVerifiedDevice | proliantutils/hpsum/hpsum_controller.py:159-191 | hpsum runs only when every check passed and the mount succeeded. It runs from the mount point with the parsed components. |
| HpsumUpdate.TempDirExactlyWhenChecksPass | proliantutils/hpsum/hpsum_controller.py:159-173 | `mkdtemp` runs exactly when the URL, eject, insert, scan, existence and checksum checks all pass. |
| HpsumUpdate.CleanupOnEveryPath | proliantutils/hpsum/hpsum_controller.py:173-195 | Once `mkdtemp` has run, `rmtree` of that directory is the last action, whatever happened in between. Without `mkdtemp` there is no removal. |
| HpsumUpdate.ReplayTryBlock | proliantutils/hpsum/hpsum_controller.py:174-195 | From a fresh unmounted directory, the try block and the removal leave the directory mounted and on disk exactly when the mount succeeded but the executor raised or `umount` failed. |
| HpsumUpdate.LeftoversAfterUpdate | proliantutils/hpsum/hpsum_controller.py:174-195 | After the whole update, the device is still mounted and the directory still exists exactly in those cases. Otherwise both are gone. |
| HpsumUpdate.UmountOnlyAfterNormalReturn | proliantutils/hpsum/hpsum_controller.py:191-193 | `umount` is attempted exactly when the mount succeeded and the executor returned, and always right before the removal. |
| HpsumUpdate.NormalReturnOnlyAfterRun | proliantutils/hpsum/hpsum_controller.py:191-197 | The update returns normally exactly when hpsum ran on a mounted device and the executor returned. It then returns that value. |
| HpsumUpdate.DeviceScanFailures | proliantutils/hpsum/hpsum_controller.py:155-161 | No matching label, and nothing else, ends in the unbound-name failure. A matched path that does not exist ends in "Unable to find the virtual media device for HPSUM". |
| HpsumUpdate.ReplaySwap | proliantutils/hpsum/hpsum_controller.py:148-149 | After validation the media are unchanged. After the eject the CDROM slot is empty when it succeeded. After the insert the slot holds the URL when it succeeded. |
| HpsumUpdate.MediaAfterSwap | proliantutils/hpsum/hpsum_controller.py:148-197 | After a passing swap the CDROM slot holds the URL when the update ends, whatever follows. |
| HpsumUpdate.MediaAfterUpdate | proliantutils/hpsum/hpsum_controller.py:148-149 | The final media are unchanged if validation or the eject fails, and CDROM is emptied if the insert fails. Otherwise CDROM holds the URL. |

## Left out

- Reading the log file at `/var/hp/log/localhost/hpsum_log.txt`: the log's contents, or its absence, are an input. The path is not modelled.
- Running processes: `mount`, hpsum and `umount` are actions whose outcomes are inputs. `str(e)` of a `ProcessExecutionError` is an input string. `processutils.execute` accepts only exit code 0, so a normal run is `Completed` and every other exit code is `Failed`.
- `time.sleep(5)` is a `Settle(5)` action. No clock is modelled.
- `os.listdir` is an input list in listing order. Its failure when `/dev/disk/by-label/` does not exist (`FileNotFoundError`) is not modelled, so the model knows only two ways the scan can fail. `os.path.exists` is a set of existing paths. `tempfile.mkdtemp`'s name is an input, and the directory is assumed not to be a mount point beforehand.
- iLO client construction from `driver_info` and the iLO protocol: eject and insert failures are inputs of kind `IloError` or `IloConnectionError` and are passed on unchanged.
- `utils.validate_href` and `utils.verify_image_checksum`: their internals are not modelled. Their failures are input messages wrapped in `HpsumOperationError`.
- The `node` dictionary: `Request` holds the first image's URL, checksum and component field. A missing key or empty image list (`KeyError`, `IndexError`) is not modelled.
- `shutil.rmtree` failures other than a directory that is still a mount point are not modelled (`ignore_errors=True` hides them).
- `fnmatch` is modelled only for the pattern `SPP*`: a case-sensitive prefix test, as on POSIX.
- Whitespace for `strip()` is the set of characters `str.isspace()` accepts. `str.split(',')` is modelled with the same literal splitter as `re.split('\n\n', …)`; the two agree on literal separators.
- An empty component field stays a falsy string in Python. It is modelled as no components (`None`), which gives the same empty command argument.
- HpsumUpdate.DeviceScanFailures: the "Unable to find" case is stated in one direction only. A checksum failure message could be that same text.
- HpsumUpdate.LeftoversAfterUpdate: requires that the fresh temporary directory is not already a mount point, which `mkdtemp` ensures and the model cannot see.
