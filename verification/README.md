# gdal_rename in Dafny

gdal_rename renames a georeferenced raster after the coordinates of one of its
corners, and moves its companion files (world file, projection file and other
format-specific side files) along with it. This project models the decision
logic of `gdal_rename.cpp` and proves properties of it:

- `cstrings.dfy` (module `CStrings`): the C library routines the tool relies on.
  These are `tolower` in the C locale, `strcasecmp`/`strncasecmp` (GDAL's
  `EQUAL`/`EQUALN`), `atoi` and character counting.
- `coords.dfy` (module `GeoCoords`): corner selection from the affine
  geotransform (`getCoord`), the hemisphere letter (`getCoordHemi`), the
  reference-point check (`checkRefPoint`) and the fallback to "WN".
- `companions.dfy` (module `Companions`): the world-file extension
  (`getWorldFileExt`) and the companion extension list (`getCompFilesExt`).
- `template.dfy` (module `NameTemplate`): the printf template `main` builds
  from the options, the raw `-f` template that replaces it, and the cut of
  integer coordinates to the requested number of digits (`nDigits` and the
  division by a power of ten). It also covers the argument list given to the
  printf engine and the 256-byte name buffer.
- `renamer.dfy` (module `Renamer`): `renameFileNoOverWrite` over a filesystem
  held as a map from paths to contents, in a `FileSystem` class whose renames
  update that map in place. It also covers the final loop that renames the
  dataset and then each companion.

Where the code and its description differ, the model follows the code:

- The backup name inserts `_OldName` before the last four characters of the
  target.
- `checkRefPoint` lists "ES" twice and never "SE", so "SE" is refused and
  replaced by "WN".
- `checkRefPoint` ignores case but `getCoord` does not. A lower-case
  reference point is accepted, and then both of its letters select the
  origin's X.
- In real mode without padding no `f` conversion is written.
- The usage text says easting 621000 with `-l 4` prints 06210. The code
  gives 6210: truncation keeps `atoi(-l)` high-order digits, and `%.4d`
  pads to four.
- Under the modelled rename semantics, running the tool on a file that
  already carries its computed name moves it to the backup name: the rename
  onto itself fails, the file is parked, and the third rename finds no
  source. A filesystem on which a rename onto the same name succeeds as a
  no-op leaves the file in place instead.
- There is no check for an existing target before the rename. An existing
  target is moved aside only after the first rename fails.

## Model

| member | source | states |
|---|---|---|
| CStrings.AtoiDigits | gdal_rename.cpp:380 | atoi reads any non-empty run of digits, leading zeros included, as its value, stopping at the first non-digit |
| CStrings.AtoiDecimal | gdal_rename.cpp:380 | atoi reads back the shortest decimal spelling of n, and the same spelling after one leading zero (as in -l 04) |
| CStrings.EqualEmpty | gdal_rename.cpp:356 | EQUAL(s, "") holds exactly when s is empty |
| GeoCoords.GetCoord | gdal_rename.cpp:54-68 | W and N give the origin's X and Y; E gives X plus width times pixel width; S gives Y plus height times pixel height; any other letter acts as W |
| GeoCoords.GetCoordHemi | gdal_rename.cpp:73-104 | the letter is E/W exactly for designators W and E and N/S for all others; it is E or N exactly when getCoord's value is non-negative |
| GeoCoords.NorthUpEdges | gdal_rename.cpp:54-68 | for a north-up raster, W lies left of E and S lies below N |
| GeoCoords.CheckRefPoint | gdal_rename.cpp:225-237 | definition: two characters, equal ignoring case to one of WN, EN, NW, NE, WS, ES, SW, ES (ES twice, as written); its properties are CheckRefPointAccepts and SouthEastRejected |
| GeoCoords.CheckRefPointAccepts | gdal_rename.cpp:225-237 | a reference point is accepted iff it has two characters and, lower-cased, is one of wn, en, nw, ne, ws, es, sw |
| GeoCoords.SouthEastRejected | gdal_rename.cpp:225-237 | "SE" and "se" are refused although the usage text at line 197 lists SE; "ES" is accepted |
| GeoCoords.ResolveRefPoint | gdal_rename.cpp:274-277 | the point used is always accepted: the given one if checkRefPoint accepts it, otherwise "WN" |
| GeoCoords.RefPointCoords | gdal_rename.cpp:347-352 | definition: the pair of getCoord values for the first and the second letter of the reference point; its property is SwappedRefPointSwapsCoords |
| GeoCoords.SwappedRefPointSwapsCoords | gdal_rename.cpp:347-352 | the first coordinate comes from the first letter and the second from the second, so swapping the letters swaps the coordinates |
| GeoCoords.LowerCaseRefPoint | gdal_rename.cpp:225-237 | "wn" passes the check but then both coordinates are the origin's X, and both hemisphere letters come from N/S |
| Companions.WorldFileExt | gdal_rename.cpp:139-148 | the first and third characters of the extension followed by 'w'; a two-character extension gives its first character and 'w' |
| Companions.FormatCompanions | gdal_rename.cpp:163-178 | definition: the format's own side-file extensions, chosen by the dataset extension ignoring case; its properties are CompanionExtsTable and CompanionExtsIgnoreCase |
| Companions.CompanionExts | gdal_rename.cpp:156-181 | the world-file extension comes first; every listed extension has at least two characters |
| Companions.GetCompFilesExt | gdal_rename.cpp:156-181 | the pushes leave the world-file extension followed by the format's own list |
| Companions.CompanionExtsTable | gdal_rename.cpp:163-178 | by lower-cased extension: tif adds prj, ecw adds ers, img adds led, nul, trl, vol, jp2/j2k add prj, any other adds nothing |
| Companions.CompanionExtsIgnoreCase | gdal_rename.cpp:163-178 | extensions equal up to case get the same format companions |
| Companions.TifCompanions | gdal_rename.cpp:139-148 | "tif" gives tfw, prj; "TIF" gives TFw, prj, so the world-file extension keeps the dataset's case |
| Companions.CompanionExtsDistinct | gdal_rename.cpp:156-181 | no extension appears twice in the list |
| NameTemplate.NDigits | gdal_rename.cpp:46-50 | ceil(log10(v)) is the k with 10^(k-1) < v <= 10^k |
| NameTemplate.NDigitsIsLeast | gdal_rename.cpp:46-50 | no exponent smaller than nDigits(v) reaches v |
| NameTemplate.NDigitsOfPowerOfTen | gdal_rename.cpp:46-50 | nDigits(10^k) is k, one less than its digit count |
| NameTemplate.NDigitsMonotone | gdal_rename.cpp:46-50 | a larger value never has fewer digits |
| NameTemplate.TruncateCoords | gdal_rename.cpp:379-390 | definition: with e the larger nDigits of the two coordinates minus atoi(-l), both are divided by 10^e when e > 0 and kept otherwise; its properties are the four truncation lemmas below |
| NameTemplate.TruncationSkipped | gdal_rename.cpp:379-390 | when neither coordinate has more digits than atoi(-l), both are kept |
| NameTemplate.TruncationDropsLowDigits | gdal_rename.cpp:379-390 | otherwise both lose the same e low-order digits: r * 10^e <= c < (r+1) * 10^e, and their order is kept |
| NameTemplate.TruncationWidth | gdal_rename.cpp:379-390 | after truncation to n >= 1 digits the larger coordinate lies between 10^(n-1) and 10^n |
| NameTemplate.TruncationExample | gdal_rename.cpp:200-203 | easting 621000 and northing 45000 with -l 4 become 6210 and 450 |
| NameTemplate.TruncationOfPowerOfTen | gdal_rename.cpp:379-390 | 1000000 with -l 4 becomes 10000, five digits, because nDigits(10^6) is 6 |
| NameTemplate.SignOf | gdal_rename.cpp:358-364 | definition: "geo" ignoring case gives the hemisphere-letter conversion, else a first four characters "forc" ignoring case give the forced sign, else the plain sign; its property is SignPolicy |
| NameTemplate.CoordTemplate | gdal_rename.cpp:356-377 | definition: '%', the sign part, then the width/precision field and conversion letter; its properties are TemplateEncodesOptions and CoordTemplatePercents |
| NameTemplate.MainTemplate | gdal_rename.cpp:356-396 | definition: -f when given, else prefix, conversion, separator, conversion, suffix; its properties are OverrideTakesPrecedence and TemplateArityMatchesArgs |
| NameTemplate.TemplateEncodesOptions | gdal_rename.cpp:356-377 | the coordinate conversion starts with '%' and reads back to the sign policy and the numeric field it was built from |
| NameTemplate.SignPolicy | gdal_rename.cpp:360-364 | "geo" in any case wins; otherwise the sign is forced iff the first four characters are "forc" in any case |
| NameTemplate.OverrideTakesPrecedence | gdal_rename.cpp:356-396 | the override is in effect iff -f is non-empty, and then the template is -f whatever the other options are; without it the template is prefix, conversion, separator, conversion, suffix |
| NameTemplate.IntArgsAsWritten | gdal_rename.cpp:344-389 | definition: the truncated coordinates when the template is built from the options in integer mode, and the initial 0, 0 otherwise; its properties are OverrideZeroesIntegerArgs and OverridePrintfArgsIgnoreCoords |
| NameTemplate.IntArgs | gdal_rename.cpp:344-389 | definition: the corrected integer arguments, the truncated coordinates as above and the coordinates themselves otherwise; its properties are OverrideArgsDistinguishTiles and IntendedPrintfArgsDistinguishTiles |
| NameTemplate.OverrideZeroesIntegerArgs | gdal_rename.cpp:344-396 | as written, any -f template receives 0 and 0 as its integer arguments, whatever the coordinates |
| NameTemplate.OverrideArgsDistinguishTiles | gdal_rename.cpp:410-415 | as intended, an override receives the coordinates, so different corners give different arguments |
| NameTemplate.ArgList | gdal_rename.cpp:403-416 | four arguments under "geo" (hemisphere letter before each coordinate), two otherwise; doubles in real mode, the given integer pair otherwise |
| NameTemplate.PrintfArgs | gdal_rename.cpp:403-416 | as written: two or four arguments, and under -f in integer mode every integer argument is 0 |
| NameTemplate.IntendedPrintfArgs | gdal_rename.cpp:403-416 | as intended: two or four arguments, and under -f in integer mode both coordinates are among them |
| NameTemplate.OverridePrintfArgsIgnoreCoords | gdal_rename.cpp:412-415 | as written, under -f in integer mode the argument list is the same for every pair of coordinates and holds only zeros as integers |
| NameTemplate.UsageExampleTilesCollide | gdal_rename.cpp:212-214 | the usage example template gets [0, 0] for eastings 621000 and 622000 alike |
| NameTemplate.IntendedPrintfArgsDistinguishTiles | gdal_rename.cpp:412-415 | as intended, under -f in integer mode different coordinates give different argument lists |
| NameTemplate.PrintfArgsAgreeOutsideOverride | gdal_rename.cpp:403-416 | without -f, or in real mode, the as-written and intended argument lists are equal |
| NameTemplate.CoordTemplatePercents | gdal_rename.cpp:358-376 | the conversion holds one '%', or two under "geo" |
| NameTemplate.TemplateArityMatchesArgs | gdal_rename.cpp:393-416 | a built template has as many '%' as the arguments passed to the printf engine |
| NameTemplate.TruncateIntCoords | gdal_rename.cpp:379-390 | the casts and the division by a power of ten leave exactly the truncated pair described above |
| NameTemplate.BuildTemplate | gdal_rename.cpp:344-396 | the step-by-step build yields the template above and the as-written integer arguments |
| NameTemplate.NameFromBuffer | gdal_rename.cpp:398-399 | the new name is the printed text cut to at most 255 characters, and is whole when it fits |
| Renamer.CanRename | gdal_rename.cpp:111 | definition: VSIRename succeeds iff the source exists and the target does not |
| Renamer.Moved | gdal_rename.cpp:111 | a successful rename moves the content from source to target and keeps every other file |
| Renamer.MovedKeepsCount | gdal_rename.cpp:111 | a successful rename keeps the number of files |
| Renamer.BackupPath | gdal_rename.cpp:116-117 | the backup path is the target with "_OldName" inserted before its last four characters: the first part, "_OldName" and the last four characters are each pinned down |
| Renamer.BackupPathInjective | gdal_rename.cpp:116-117 | distinct targets get distinct backup paths, and no backup path equals its target |
| Renamer.FileSystem.Rename | gdal_rename.cpp:111 | VSIRename returns 0 and moves the file iff the source exists and the target does not, else -1 with nothing changed |
| Renamer.FileSystem.RenameNoOverWrite | gdal_rename.cpp:109-134 | the three renames leave the filesystem and the return value described by NoOverwrite |
| Renamer.NoOverwrite | gdal_rename.cpp:109-134 | definition: the rename; on failure the backup of the target and, when that succeeds, the rename again; false only when the backup fails; its properties are the five lemmas below |
| Renamer.NoOverwriteReportsOnlyBackupFailure | gdal_rename.cpp:109-134 | false is returned iff both the rename and the backup fail, and then nothing changes; true is never returned |
| Renamer.NoOverwriteMovesSource | gdal_rename.cpp:111-124 | with the source present and the backup path free, the source ends at the target and the old target at the backup path |
| Renamer.RenameToSelfParksFile | gdal_rename.cpp:111-124 | renaming a file onto its own name moves it to the backup path and leaves the name empty |
| Renamer.MissingSourceStillParksTarget | gdal_rename.cpp:111-124 | with the source missing, an existing target is still moved to its backup path |
| Renamer.NoOverwriteKeepsEveryFile | gdal_rename.cpp:109-134 | the number of files is unchanged, every file other than the source and target keeps its path and content, and no file appears except at the target or its backup path |
| Renamer.NewPath | gdal_rename.cpp:428 | the new path ends with the extension |
| Renamer.NewPathInjective | gdal_rename.cpp:442 | new paths with the same directory and name differ iff their extensions do |
| Renamer.CompanionPlan | gdal_rename.cpp:437-446 | step i renames dir\old-base.ext_i to dir\new-name.ext_i |
| Renamer.RenameAll | gdal_rename.cpp:437-446 | definition: renameFileNoOverWrite applied to each step of the plan in order, each on the filesystem the previous step left; its properties are the three lemmas below |
| Renamer.RenameAllKeepsFileCount | gdal_rename.cpp:437-446 | the companion loop never changes the number of files |
| Renamer.RenameAllFrame | gdal_rename.cpp:437-446 | a file no step names as source, target or backup is left alone |
| Renamer.RenameAllCreatesOnlyTargets | gdal_rename.cpp:437-446 | the companion loop creates files only at the steps' targets and their backup paths |
| Renamer.CompanionTargetsDistinct | gdal_rename.cpp:434-446 | no two companions are sent to the same new path |
| Renamer.DatasetRename | gdal_rename.cpp:428-446 | definition: the primary rename, then the companion loop; with an extension shorter than two characters getWorldFileExt throws and only the primary rename happens |
| Renamer.DatasetRenameKeepsFileCount | gdal_rename.cpp:428-446 | renaming the dataset and its companions never changes the number of files |
| Renamer.ShortExtensionLeavesCompanions | gdal_rename.cpp:428-434 | with an extension shorter than two characters every file other than the dataset and its new path keeps its name and content: the throw at getWorldFileExt stops the companions from moving |
| Renamer.RenameDataset | gdal_rename.cpp:428-446 | renaming the dataset and then looping over the companion extensions yields DatasetRename of the initial filesystem; it aborts after the primary rename exactly when the extension is shorter than two characters |

## Left out

- GDAL I/O: opening the dataset, reading its geotransform and raster size, and closing it. The geotransform and sizes are parameters.
- The CPL path helpers CPLGetDirname, CPLGetBasename and CPLGetExtension: their results are parameters (`dir`, `base`, `ext`).
- The printf engine: the text it prints is the `printed` parameter. What is modelled is the template given to it, the arguments, and the cut to the buffer. The try/catch around the call is also left out.
- Floating point. Coordinates and the geotransform are integers, so `Dbl` holds a whole number and the `(int)` cast is the identity.
- NameTemplate.TruncateCoords: requires positive coordinates. nDigits of zero or a negative value (log10 of a non-positive double) is undefined in the source, so the model does not give it a value.
- Command-line parsing, Usage and console messages.
- The `-z` flag: padding starts true and the flag can only set it true. The `pszCoordLenght != ""` test compares pointers and is taken as always true.
- Renamer.FileSystem.Rename: VSIRename follows Windows semantics and fails only for a missing source or an existing target. A POSIX rename would replace the target. Other failures the source's messages anticipate (a locked or open file, missing access rights) are not modelled, so the lemmas that promise a move assume none of them occurs. A rename of a path onto itself fails because the target exists, which is what makes RenameToSelfParksFile hold.
- Renamer.NoOverwrite: `None` stands for the value `renameFileNoOverWrite` returns when it ends without a return statement, which is undefined behaviour.
- Renamer.RenameDataset: the results of the renames are ignored, as in the source. The message printed when the primary rename reports false is left out. The thrown exception that ends the program on a short extension is the `aborted` result.
- Companions.WorldFileExt: requires at least two characters, because `substr(2, 1)` throws on a shorter extension.
- Renamer.BackupPath: requires a target of at least four characters, because `substr(length - 4)` is invalid on a shorter one.
- Renamer.RenameDataset: requires the new dataset path to have at least four characters (directory, name and extension of at least two characters together). With a shorter one, the backup step's `substr` throws when the first rename fails; that case is not modelled. A short extension alone is modelled: the primary rename happens, then getWorldFileExt throws and the program ends.
- Coordinates, the geotransform and `-l` are unbounded integers. The source keeps them in 32-bit `int` (lines 344 and 382-389), and `atoi` at line 380 overflows on a value out of range; the model assumes every value fits.

## Findings

| source | as written | input that shows it | evidently intended | confidence | as-written member | corrected member |
|---|---|---|---|---|---|---|
| gdal_rename.cpp:344-396 | `iCoord0`/`iCoord1` start at 0 and are only assigned in the options-built integer branch, so a raw `-f` template gets 0 and 0 | `-f "Tiles_%.4d-%.4d_Lambert93"` (the usage example) on rasters at 621000 and 622000 easting: both named Tiles_0000-0000_Lambert93 | the raw template receives the corner coordinates | not executed | NameTemplate.OverridePrintfArgsIgnoreCoords | NameTemplate.IntendedPrintfArgsDistinguishTiles |
