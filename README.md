# SysWeaver image builder: a verified Dafny model

SysWeaver builds operating-system images from a template directory. This
project models two parts of its Go code and proves properties about them.

- **Image layout** (`internal/image/part.go`). This part covers:
  - `ParseSizeToMB`, which reads size strings;
  - `contains`;
  - the rules `CreateRawImage` uses to cut a raw disk image into partitions:
    - the image size the layout sees;
    - the fixed-size pre-pass;
    - the percentage layout loop;
    - the boot flag;
    - the partition device names;
    - the filesystem dispatch;
    - the directory a partition is filled from;
    - the copy command.
- **Build driver** (`cmd/main.go`). This part covers:
  - the default configuration path;
  - `getScriptsInOrder`, which selects the installation scripts;
  - the path each script has inside the chroot;
  - the script loop, which stops at the first failure;
  - how the buffered output of a script is shown: in full, as a preview, or not at all.

The model has five files:

- `wrappers.dfy`: the `Option` and `Result` types.
- `go_strings.dfy`: the Go standard-library string functions the code relies on:
  - `strings.ToUpper`, `HasSuffix`, `TrimSuffix` and `Split`;
  - `strconv.Atoi` and `Itoa`;
  - Go's truncating integer division.
- `go_filepath.dfy`: the lexical `path/filepath` functions `Join`, `Clean`, `Base` and `Ext` on a Unix host.
- `part.dfy`: the image-layout rules.
- `driver.dfy`: the build driver.

Each loop the model covers is a Dafny method with a loop invariant:

- `contains` (`Part.Contains`);
- the fixed-size pre-pass (`Part.FixedSizePass`);
- the layout loop (`Part.LayoutLoop`);
- `getScriptsInOrder` (`Driver.ScriptsInOrder`);
- the script loop (`Driver.RunScripts`);
- the two index loops of the preview (`Driver.PrintFirstFive`, `Driver.PrintLastFive`).

Each method is proved equal to a specification function, or to a direct statement. The lemmas then prove the source's properties about those functions.

The model follows the code wherever the code has quirks:

- `ParseSizeToMB` cuts the suffixes `GB` and `MB` as three characters, as it does `GIB` and `MIB`. So `"10GB"` is 1024 MB, `"512MB"` is 51 MB, and an input of exactly `"GB"` or `"MB"` panics with a slice out of range. The model returns that panic as a `Failure`.
- The image size the layout uses recognises only an exact, upper-case `G` or `M` suffix. Any other image size gives a total of 0, and a fixed-size partition then divides by zero.
- An `Atoi` error is ignored, so `"5KIB"` is 0 MB.
- `CreateRawImage` parses the image size for `dd` before it creates the image file or any partition; only the output directory exists by then. It also parses every fixed partition size when it adds up the fixed-size total, before the first `parted mkpart`. That total is never used afterwards, but a size that panics stops the build right there, with no partition created. The model keeps this ordering: a layout that stops on a size panic holds no ranges.

## Model

| member | source | states |
|---|---|---|
| Part.ParseSizeToMB | internal/image/part.go:258-276 | panics exactly when the upper-cased size is "GB" or "MB", the only inputs whose three-character cut is out of range |
| Part.ParseSizeIgnoresCase | internal/image/part.go:259 | a size and its upper-cased form give the same result |
| Part.ParseSizeGibibytes | internal/image/part.go:262-267 | a number followed by G or GiB, in any letter case, is that number times 1024 |
| Part.ParseSizeMebibytes | internal/image/part.go:268-275 | a number followed by M or MiB in any letter case, or with no unit, is that number |
| Part.ParseSizeTwoLetterUnits | internal/image/part.go:262-269 | with GB or MB the last digit is cut away too: the result is the number divided by 10 (truncating), times 1024 for GB |
| Part.ParseSizeCaseExamples | internal/image/part.go:259-271 | "512m" and "512M" are both 512; "1g" and "1G" are both 1024 |
| Part.ParseSizeTwoLetterExamples | internal/image/part.go:262-269 | "10GB" is 1024 and "512MB" is 51 |
| Part.ParseSizeNegative | internal/image/part.go:274-275 | a sign is read: "-3M" is -3 |
| Part.ParseSizeUnknownUnit | internal/image/part.go:274-275 | the example "5KIB" is 0 |
| Part.ParseSizeNotANumber | internal/image/part.go:260-275 | a size that ends in no unit and is not a number, in any letter case, is 0: the Atoi error is dropped |
| Part.ParseSizeUnitAfterNonNumber | internal/image/part.go:260-275 | G, GiB, M or MiB, in any letter case, after something that is not a number gives 0 |
| Part.ParseSizeUnitRule | internal/image/part.go:259-275 | for any text followed by G, GiB, M or MiB in any letter case, the result is Atoi of the upper-cased text, 0 when Atoi rejects it, times 1024 for G and GiB; so "+5G", "05M" and "1.5G" follow Atoi's own rules |
| Part.ParseSizeTwoLetterRule | internal/image/part.go:259-275 | for any non-empty text followed by GB or MB in any letter case, the text's last character is cut with the unit, and the rest is read by Atoi, 0 when rejected, times 1024 for GB |
| Part.ParseSizeBareUnitPanics | internal/image/part.go:262-269 | "gb" and "MB" panic |
| Part.Contains | internal/image/part.go:279-286 | true exactly when some element equals the item |
| Part.TotalSizeMB | internal/image/part.go:77-83 | the layout total is non-zero only for a size ending in an upper-case G or M |
| Part.TotalSizeUnits | internal/image/part.go:77-83 | a number followed by G is that number times 1024; followed by M it is that number |
| Part.TotalSizeIgnoresGiB | internal/image/part.go:48-83 | "1GiB" makes a 1024 MB image, but the layout sees a total of 0 |
| Part.TotalSizeIsCaseSensitive | internal/image/part.go:77-83 | "1g" makes a 1024 MB image, but the layout sees a total of 0 |
| Part.LayoutFrom | internal/image/part.go:86-140 | the definition of the loop's layout of the partitions from position i on; LayoutFromShape, LayoutFromEnds, LayoutFromError and LayoutLoop carry its properties |
| Part.PlanLayout | internal/image/part.go:48-140 | the definition of the whole layout: the image-size panic, then the first fixed-size panic, else LayoutFrom from 0%; LayoutPartitions, LayoutSizePanics, LayoutErrors, LayoutContiguous and LayoutWithinDisk carry its properties |
| Part.PartitionEnd | internal/image/part.go:91-105 | fails exactly for a fixed size that panics or a total of 0; the division by zero happens exactly when the size parsed; "*" ends at 100; every end is at most 100 |
| Part.EndOfPartition | internal/image/part.go:91-105 | the loop body computes PartitionEnd for the partition's size class |
| Part.FirstSizePanic | internal/image/part.go:69-74 | the first partition from a position on whose fixed size panics; no partition before it panics |
| Part.FixedSizePass | internal/image/part.go:69-74 | the fixed-size pre-pass panics at the first partition whose size panics, and only there |
| Part.LayoutLoop | internal/image/part.go:86-140 | the loop's ranges and error are those of the layout function LayoutFrom from the first partition at 0% |
| Part.LayoutPartitions | internal/image/part.go:48-140 | the image-size parse, the pre-pass and the loop together give PlanLayout(config) |
| Part.LayoutFromShape | internal/image/part.go:86-140 | at most one range per partition, all of them unless the loop stopped, numbered on from the first, each starting where the previous one ended |
| Part.LayoutFromEnds | internal/image/part.go:91-136 | each range ends where PartitionEnd puts it, and carries the boot flag exactly when its partition's flags contain "boot" |
| Part.LayoutFromError | internal/image/part.go:91-105 | a stopped loop stopped at the partition after its last range, with that partition's PartitionEnd error |
| Part.LayoutContiguous | internal/image/part.go:86-139 | the first range starts at 0%; ranges are contiguous; partition k is numbered k + 1; "*" ends at 100; a fixed partition ends at min(100, start + sizeMB * 100 / total) |
| Part.LayoutBootFlag | internal/image/part.go:127-136 | a range has the boot flag exactly when its partition's flags contain "boot" |
| Part.CanLayOutClass | internal/image/part.go:91-99 | PartitionEnd succeeds exactly on a partition that can be laid out; on a size that does not panic it can only divide by zero |
| Part.LayoutLoopErrors | internal/image/part.go:86-140 | when no size panics, the loop covers every partition, or stops with a division by zero at the first one that cannot be laid out |
| Part.LayoutSizePanics | internal/image/part.go:48-74 | a size panic happens exactly when the image size or some fixed partition size panics; the image size is checked first, then the first such partition; no partition is created |
| Part.LayoutErrors | internal/image/part.go:48-105 | the layout covers all partitions exactly when the image size parses and every partition can be laid out; a division by zero means a total of 0 at a fixed partition, with only "*" partitions created before it |
| Part.LayoutWithinDisk | internal/image/part.go:86-139 | with a recognised image size and non-negative sizes, 0 <= start <= end <= 100 for every range, and no two ranges overlap |
| Part.UnrecognisedSizeDividesByZero | internal/image/part.go:77-98 | a "1GiB" image with a "512M" partition stops with a division by zero before any partition is created |
| Part.PartitionDevice | internal/image/part.go:161 | the definition of a partition's device: the loop device, "p", then its number counted from 1; PartitionDeviceOfRange and PartitionDevicesDistinct carry its properties |
| Part.PartitionDeviceOfRange | internal/image/part.go:159-161 | the k-th partition's device is the loop device, then "p", then the number of its mkpart range |
| Part.PartitionDevicesDistinct | internal/image/part.go:159-161 | two partitions get the same device exactly when they are the same partition |
| Part.FormatCommand | internal/image/part.go:180-188 | only ext4 and vfat are formatted, with mkfs.<fs> on the partition device; any other filesystem is refused with its name |
| Part.SourceDir | internal/image/part.go:219-226 | the definition of the directory a partition is filled from; SourceDirName, SourceDirNoMount, SourceDirSlashesMount, SourceDirParentMount and NestedMountsShareSource carry its properties |
| Part.SourceDirName | internal/image/part.go:219-226 | for "/" and for a mount path whose last element is a name: the source directory is named "root" for "/" and after that last element otherwise, and is that name directly inside the cleaned template directory |
| Part.SourceDirNoMount | internal/image/part.go:219-226 | with no mount path (Base gives ".") the partition is filled from the whole cleaned template directory |
| Part.SourceDirSlashesMount | internal/image/part.go:219-226 | a mount path of two or more separators is not "/" and also fills the partition from the whole cleaned template directory |
| Part.SourceDirParentMount | internal/image/part.go:219-226 | a mount path ending in ".." fills the partition from the template directory's parent |
| Part.NestedMountsShareSource | internal/image/part.go:223-225 | "/boot/efi" and "/efi" are filled from the same template directory |
| Part.CopyCommand | internal/image/part.go:237-244 | cp from sourceDir/. into mountPoint/; ownership is kept (-a) exactly when the filesystem is not vfat |
| GoStrings.HasSuffix | internal/image/part.go:78-82 | the definition of strings.HasSuffix: the suffix is no longer than the string and its tail equals it; TrimSuffix, TotalSizeMB and ParseSizeToMB rely on it |
| GoStrings.TrimSuffix | internal/image/part.go:79-82 | with the suffix present, the result followed by the suffix is the string; without it, the string is returned unchanged |
| GoStrings.ToUpper | internal/image/part.go:259 | the definition of ASCII upper-casing; ToUpperIdempotent and ParseSizeIgnoresCase carry its properties |
| GoStrings.Atoi | internal/image/part.go:274 | the definition of reading a signed decimal number, None on a syntax error; ItoaAtoi, ParseSizeNotANumber and ParseSizeUnitAfterNonNumber carry its properties |
| GoStrings.Itoa | internal/image/part.go:161 | the definition of writing a number in decimal; ItoaAtoi, ItoaInjective and ItoaDropLast carry its properties |
| GoStrings.Quo | internal/image/part.go:98 | the definition of Go's division, truncating toward zero; ItoaDropLast and LayoutContiguous use it |
| GoStrings.Split | cmd/main.go:188 | the definition of splitting on one separator character; SplitJoin, SplitPiecesFree and SplitEndingInPiece carry its properties |
| GoStrings.ToUpperIdempotent | internal/image/part.go:259 | upper-casing twice is upper-casing once |
| GoStrings.ItoaAtoi | internal/image/part.go:274 | Atoi reads back every number Itoa writes |
| GoStrings.ItoaInjective | internal/image/part.go:161 | different numbers are written differently |
| GoStrings.ItoaDropLast | internal/image/part.go:264 | dropping a number's last digit reads as the number divided by 10, truncating toward zero |
| GoStrings.SplitJoin | cmd/main.go:188 | joining the pieces of a split with the separator gives back the string |
| GoStrings.SplitPiecesFree | cmd/main.go:188 | no piece of a split holds the separator |
| GoStrings.SplitEndingInPiece | cmd/main.go:372 | splitting dir + "/" + name gives the pieces of dir, then name |
| GoFilepath.Clean | cmd/main.go:372 | the definition of lexical path cleaning, which Join applies; it is never empty; JoinBase and JoinName carry its properties |
| GoFilepath.Join | internal/image/part.go:221-225 | the definition of joining two paths and cleaning the result; JoinBase and JoinName carry its properties |
| GoFilepath.Base | internal/image/part.go:224 | the definition of the last element of a path; BaseOfName and JoinBase carry its properties |
| GoFilepath.Ext | cmd/main.go:371 | the definition of the extension after the last dot of the last element; ExtIsSh carries its properties |
| GoFilepath.BaseOfName | internal/image/part.go:224 | the base of a path that ends in a name is that name |
| GoFilepath.JoinBase | cmd/main.go:121 | the base of dir joined with a name is that name |
| GoFilepath.JoinDot | internal/image/part.go:224-225 | joining "." onto a directory gives the cleaned directory |
| GoFilepath.JoinRoot | internal/image/part.go:224-225 | joining "/" onto a non-empty directory gives the cleaned directory |
| GoFilepath.JoinParent | internal/image/part.go:224-225 | joining ".." onto parent/name gives the cleaned parent |
| GoFilepath.BaseOfSlashes | internal/image/part.go:224 | a path made only of separators has base "/" |
| GoFilepath.JoinName | internal/image/part.go:221-225 | dir joined with a name is the name after the cleaned dir with one separator, after the root alone when dir cleans to "/", and the name alone when dir is empty or cleans to "." |
| GoFilepath.ExtIsSh | cmd/main.go:371 | a path has extension ".sh" exactly when it ends in ".sh" |
| Driver.ConfigPath | cmd/main.go:53-56 | the definition of the config path chosen; ConfigPathDefault carries its properties |
| Driver.ConfigPathDefault | cmd/main.go:53-56 | a given config path is used as is; without one, the file read is config.yaml directly inside the cleaned template directory |
| Driver.IsScript | cmd/main.go:371 | the definition of a script entry: not a directory, with extension ".sh"; ScriptEntry and ScriptEntryExamples carry its properties |
| Driver.ScriptEntry | cmd/main.go:371 | an entry is a script exactly when it is not a directory and its name ends in ".sh" |
| Driver.ScriptEntryExamples | cmd/main.go:371 | "01-base.sh" is a script; "run.SH", "setup.sh.bak" and a directory "lib.sh" are not |
| Driver.ScriptNames | cmd/main.go:369-374 | the definition of the names of the script entries, in listing order; the ScriptIndices lemmas carry its properties |
| Driver.Scripts | cmd/main.go:369-374 | the definition of those names joined onto dir; ScriptsInOrder and ChrootPathsOfListing carry its properties |
| Driver.ScriptIndicesAreScripts | cmd/main.go:370-374 | every selected position holds a script entry |
| Driver.ScriptIndicesIncreasing | cmd/main.go:370-374 | selected positions keep listing order, each selected once |
| Driver.ScriptIndicesComplete | cmd/main.go:370-374 | every script entry is selected |
| Driver.ScriptNamesAtIndices | cmd/main.go:370-374 | the selected names are the names of the entries at the selected positions |
| Driver.ScriptIndicesExact | cmd/main.go:370-374 | exactly the script entries, in listing order, each once, with their names |
| Driver.ScriptsInOrder | cmd/main.go:363-379 | a listing error is returned as is; otherwise the result is the script entries joined onto dir, in listing order |
| Driver.ScriptsDir | cmd/main.go:108 | the definition of the scripts directory, templatePath joined with scripts/install; InstallScripts uses it |
| Driver.ChrootScriptPath | cmd/main.go:121-132 | the definition of a script's path in the chroot, /scripts/install/ then its base name; ChrootPathsOfListing and RunScripts carry its properties |
| Driver.ChrootPathsOfListing | cmd/main.go:119-132 | the k-th script runs in the chroot as /scripts/install/ followed by the k-th script entry's name |
| Driver.PrintFirstFive | cmd/main.go:191-195 | the first index loop prints pieces 0 to 4, those that exist |
| Driver.PrintLastFive | cmd/main.go:197-201 | the second index loop prints the last five pieces, those that exist |
| Driver.PreviewLines | cmd/main.go:179-207 | the definition of how buffered output is shown; PreviewShort, PreviewTruncated and PreviewLongFewLines carry its properties |
| Driver.Preview | cmd/main.go:179-207 | the printed lines are PreviewLines of the output |
| Driver.PreviewShort | cmd/main.go:179-184 | output under 500 bytes is shown in full between the markers when non-empty, and nothing is shown when empty |
| Driver.PreviewTruncated | cmd/main.go:186-202 | with 500 bytes or more and over ten pieces: 13 lines, pieces 0 to 4, then "...", then the last five pieces; the two ranges do not overlap; no shown piece holds a newline; the shown and hidden pieces joined by newlines give back the output |
| Driver.PreviewLongFewLines | cmd/main.go:203-206 | with 500 bytes or more and at most ten pieces, the output is shown in full |
| Driver.ScriptDisplay | cmd/main.go:136-207 | the definition of what is shown of one script's output; VerboseShowsNothing and FailureShownInFull carry its properties |
| Driver.ShowResult | cmd/main.go:136-207 | what is printed for one script is ScriptDisplay: nothing in verbose mode, the full output on failure, the preview on success |
| Driver.ShowResults | cmd/main.go:119-241 | what is printed for the scripts run is Displays of their results, in order |
| Driver.VerboseShowsNothing | cmd/main.go:136-139 | in verbose mode no buffered output is shown |
| Driver.FailureShownInFull | cmd/main.go:149-153 | a failed script's output is shown in full, after what the earlier scripts showed |
| Driver.ResultsReportSuccess | cmd/main.go:119-143 | the k-th result reports whether script k succeeded when run at its chroot path |
| Driver.RunScripts | cmd/main.go:119-241 | scripts run in order at their chroot paths; every one before the last run succeeded; either all ran and succeeded, or the last one failed and the outcome names it by its base name, with its error |
| Driver.InstallScripts | cmd/main.go:107-241 | a listing error stops the stage before any script runs; otherwise the selected scripts run in order, every script before the last one run succeeded, the All outcome comes exactly when every script ran and succeeded, a failed outcome means the last script run failed and names it by its base name with its error, and the output is shown by Displays |

## Left out

- `Part.SourceDirName` is proved only for "/" and for mount paths whose last element is a name. SourceDirNoMount, SourceDirSlashesMount and SourceDirParentMount state what happens with an empty mount path, a path of separators only and a path ending in "..": the whole template or its parent. Other mount paths whose base is "." or ".." are described only by SourceDir's definition.
- External commands and filesystem effects are not modelled, because they are I/O. The model gives argument lists for `mkfs.*` (FormatCommand) and `cp` (CopyCommand). It describes `parted mkpart` and `parted set boot` only through the ranges they receive (PartitionRange). It does not describe `dd`, `losetup`, `partprobe` or `mount`/`umount` at all. `os.MkdirAll`, `os.Stat`, `os.RemoveAll`, `filepath.Glob` and `filepath.Abs` are not modelled either.
- The image file itself is not modelled. The model keeps the `dd` size only as the `ParseSizeToMB` call on the image size, and its panic.
- The format-and-fill loop over the partitions (internal/image/part.go:159-251) is not a loop in the model. The model has its per-partition rules as functions: `Part.PartitionDevice`, `Part.FormatCommand`, `Part.SourceDir` and `Part.CopyCommand`. It does not capture that the loop formats and fills the partitions one after another, in order, and stops at the first unsupported filesystem or failed command, with the partitions before it already formatted and filled.
- The lookup of the required tools before anything else (internal/image/part.go:33-39) is left out. It searches the host's PATH.
- The sleep-and-retry wait for a partition device, and the missing-device error, are left out. They depend on timing and on the kernel.
- A "source directory does not exist" warning skips the copy. This is a filesystem check and is left out.
- Timing, floating-point durations and the progress and status messages are not modelled.
- The interactive `sudo chroot` shell of manual mode is left out. It is interactive I/O.
- The loop that copies output files out of the jail is left out. It is I/O.
- The jail, which is `internal/jail/jail.go`, is not part of this model. It is an incomplete stub. Running a script in it is the input `exec`.
- `internal/config/config.go` and the configuration files are not part of this model. They are YAML loading.
- `internal/image/iso.go` is not part of this model. It wraps an external tool.
- The cobra command wiring, flag registration, and the other sub-commands are left out.
- `Driver.RunScripts`: `exec` maps a script's position in the run and its chroot path to the result. A result can therefore depend on how many scripts ran before. The jail's state after earlier scripts is not an input.
- `Driver.InstallScripts`: what the loop prints for each script is computed from the results after the loop has stopped. The source prints it between runs, and the lines come out in the same order.
- `Driver.ScriptsInOrder`: the directory listing is an input. `os.ReadDir` returns it sorted by name, and the model keeps whatever order the listing has.
- `Driver.Preview`: the model counts bytes as characters. Output after the last newline is one more piece, as `strings.Split` makes it.
- `GoStrings.ToUpper` maps only ASCII letters. Go's Unicode case mapping of other characters is not modelled.
- `GoStrings.Atoi` reads an optional sign and decimal digits into an unbounded integer. Go's clamping of out-of-range values to the 64-bit limits is not modelled. Nor is the 64-bit overflow of `value * multiplier`, of `sizeGB * 1024`, of `sizeMB * 100`, or of `startPercent + partPercent`.
- `Part.FixedSizePass`: the fixed-size total is added up but never used by the source, so the model states only where the pass panics.
