# python-utils, modelled in Dafny

This project models six small Python command-line utilities and proves
properties of the model:

- **parse_mp4_headers.py** decodes the box ("atom") tree of an ISO base media
  (MP4) file. A box header is a 32-bit big-endian size, four type bytes, and
  an optional 64-bit size. Twelve box types are decoded recursively as
  containers. The script also finds every box of a given type in pre-order and
  prints the tree with `|___` indentation (module `Mp4Atoms`).
- **check_chinese_id.py** checks the ISO 7064 MOD 11-2 check character of an
  18-character Chinese resident identity number (module `ChinaId`).
- **archive_win_driver.py** does several things:
  - it tests a line for an equals sign outside double quotes;
  - it parses a Windows driver INF file line by line into sections of keys or
    of text;
  - it extracts the `DriverVer` date and version, resolving `%key%`
    references (module `InfFiles`);
  - it regroups per-directory scans into device → version → entries, counts
    devices by number of versions, and picks one driver per device: the first
    entry with the strictly latest date, with devices skipped by name prefix
    (module `DriverStats`).
- **openvpn2to3cli.py** folds OpenVPN 2 command-line options into the lines
  of an `.ovpn` configuration. Credentials are spliced in as an inline
  `<name>` block after the option's line (module `OpenVpn`, class `Config`).
- **excel_auto_unmerge.py** unmerges every merged range of each worksheet and
  copies the chosen attributes of the range's top-left cell to its other
  cells (module `ExcelUnmerge`, class `Sheet`).
- **python_project_packages_audit.py** collects the imports of every Python
  file of a project, reduces them to top-level names, and records which files
  import each name. It classifies each name as standard library, part of the
  project, or third party (module `PackagesAudit`).

The shared modules are:

- `Results`: `Option` and `Result`. A Python exception becomes a `Failure`
  that names its cause.
- `PyText`: the `str` operations the scripts use. These are `strip`,
  `split`, `split(sep, 1)`, `replace`, `lower`, `startswith`/`endswith`,
  string ordering and `str()` of a natural number.
- `OrderedDicts`: Python dictionaries as insertion-ordered lists of pairs.

Several parts of the scripts take the form of inputs here:

- the bytes of a file;
- the lines of a configuration or INF file;
- the content of a credential file;
- a directory tree;
- the import statements of each source file (or `None` when it does not
  parse);
- the set of standard-library names;
- a date parser standing for `strptime`.

Code that loops and mutates is modelled as methods with loop invariants,
proved against specification functions:

- `parse_atoms`, `find_atoms` and `show_atoms`;
- the INF line loop and the `%key%` replacement loop;
- the regrouping, the counters and the selection loop;
- the `os.walk` loop and the classification loop.

The two objects the scripts change in place are classes:

- the list of configuration lines that `insert_auth` and `combine_config`
  edit;
- the worksheet that `auto_unmerge_sheet` writes.

## Model

| member | source | states |
|---|---|---|
| Mp4Atoms.BigEndianRoundTrip | parse_mp4_headers.py:6-9 | Reading a k-byte big-endian field gives back any value below 256^k that was written into it. |
| Mp4Atoms.U32AtIsBigEndian | parse_mp4_headers.py:6 | The size field at `pos` is the big-endian value of bytes `pos..pos+4`. |
| Mp4Atoms.U64AtIsBigEndian | parse_mp4_headers.py:9 | The 64-bit size after a size field of 1 is the big-endian value of bytes `pos..pos+8`. |
| Mp4Atoms.DecodeEncodedChar | parse_mp4_headers.py:11 | Strict UTF-8 decoding of an encoded character, whatever follows it, gives back that character and consumes exactly its encoding. |
| Mp4Atoms.Utf8RoundTrip | parse_mp4_headers.py:11 | `bytes.decode()` of the UTF-8 encoding of a string gives back the string. |
| Mp4Atoms.PySlice | parse_mp4_headers.py:12 | Python slicing: an in-range slice is the subsequence and an empty or inverted range gives nothing. |
| Mp4Atoms.PySliceClamped | parse_mp4_headers.py:12 | An end past the data slices to the end of the data, and a start at or past the data gives nothing. |
| Mp4Atoms.ReadAtom | parse_mp4_headers.py:5-13 | read_atom succeeds exactly when 8 header bytes are present (16 when the size field is 1) and the type bytes decode; the payload is shorter than the data. |
| Mp4Atoms.HeaderFields | parse_mp4_headers.py:6-12 | The header layout: size field 1 means a 64-bit size follows and the header is 16 bytes, otherwise 8; the type is the decoding of bytes 4-8; size 0 leaves the payload empty, and any other size slices the payload from the header end to `pos + size`. |
| Mp4Atoms.StandardHeader | parse_mp4_headers.py:6-12 | Bytes holding a 32-bit size of at least 8 and a 4-byte type read back as that size, type, header length 8 and exactly the payload. |
| Mp4Atoms.ExtendedHeader | parse_mp4_headers.py:8-10 | A size field of 1 followed by a 64-bit size reads back as that size and type, with header length 16. |
| Mp4Atoms.PayloadClamped | parse_mp4_headers.py:12 | A size reaching past the data gives the rest of the data as payload; a size below the header length gives an empty payload. |
| Mp4Atoms.ContainerKindsAreContainers | parse_mp4_headers.py:54-55 | Exactly the twelve listed types are parsed as containers. |
| Mp4Atoms.ParseAtoms | parse_mp4_headers.py:15-60 | The cursor loop returns `Atoms(data, start, end)`, with `end` defaulting to the data length. |
| Mp4Atoms.ReadBox | parse_mp4_headers.py:36-58 | One loop iteration: either decoding stops here and nothing more is decoded, or one box of size at least 1 is decoded and decoding continues at `pos + size`. |
| Mp4Atoms.AtomsAreDecoded | parse_mp4_headers.py:15-60 | The decoded list fits the declarative account `Decoded`. The first box sits at the start and matches its header, resolved against the region end. Only containers hold the decoding of their own payload. Each later box starts where the previous one ends. Decoding stopped at the region end or at an unreadable header. |
| Mp4Atoms.DecodedIsUnique | parse_mp4_headers.py:15-60 | Any list that fits that account is the one parse_atoms returns. |
| Mp4Atoms.AtomsStop | parse_mp4_headers.py:34-40 | At the region end, or at a header that raises, nothing more is decoded. |
| Mp4Atoms.AtomsCons | parse_mp4_headers.py:41-58 | A box matching the header at the cursor, with children exactly when it is a container, is followed by the decoding from its end. |
| Mp4Atoms.AtomsUnfold | parse_mp4_headers.py:36-58 | The first box decoded at a readable header: its type, resolved size, offset, header length, payload and children; the rest is the decoding from `pos + size`; its size is at least 1 and its header 8 or 16 bytes. |
| Mp4Atoms.SiblingsContiguous | parse_mp4_headers.py:44-58 | The offsets of sibling boxes are contiguous from the region start and lie inside the region; every size is at least 1, so the loop always advances. |
| Mp4Atoms.SizeZeroIsLast | parse_mp4_headers.py:41-42 | A box whose size field is 0 extends to the region end, has no payload and no children, and is the last sibling. |
| Mp4Atoms.SerializeRoundTrip | parse_mp4_headers.py:15-60 | Parsing the bytes of a well-formed box tree (standard headers, followed by fewer than 8 stray bytes) gives back the tree. |
| Mp4Atoms.SerializedIsDecoded | parse_mp4_headers.py:15-60 | The bytes of a well-formed box tree fit the declarative account of that tree. |
| Mp4Atoms.ChildrenSerialized | parse_mp4_headers.py:54-56 | A well-formed container holds the decoding of its payload, and any other box has no children. |
| Mp4Atoms.FindIsPreorderFilter | parse_mp4_headers.py:62-69 | find_atoms lists the boxes of the given type in pre-order: each box before its descendants, and those before its later siblings. |
| Mp4Atoms.FindMembers | parse_mp4_headers.py:62-69 | A box is found exactly when it occurs in the tree with that type; nothing is found exactly when no box has that type. |
| Mp4Atoms.FindAppend | parse_mp4_headers.py:64-68 | Searching a concatenation of forests gives the concatenation of the results. |
| Mp4Atoms.FindSingle | parse_mp4_headers.py:65-68 | One box contributes itself when it has the type, then the matches among its descendants. |
| Mp4Atoms.FindAtoms | parse_mp4_headers.py:62-69 | The loop with its recursive calls returns the boxes of the type in pre-order. |
| Mp4Atoms.PrefixShape | parse_mp4_headers.py:75 | The indentation at depth d is 4·d characters: `"|   "` for each level above the parent, then `"|___"`. |
| Mp4Atoms.RowsArePreorder | parse_mp4_headers.py:71-77 | One line is printed per box, in pre-order, each at a depth no smaller than the starting one. |
| Mp4Atoms.RowsAppend | parse_mp4_headers.py:73-77 | The lines for a concatenation of forests are the lines of the first, then of the second. |
| Mp4Atoms.ShowAtoms | parse_mp4_headers.py:71-77 | The printed lines are, one by one, the indentation and the `type offset:… size:…` text of the rows in pre-order. |
| ChinaId.TermSumMod | check_chinese_id.py:4-5 | Reducing each weighted term modulo 11 before adding does not change the sum modulo 11. |
| ChinaId.WeightsAreTabulated | check_chinese_id.py:5 | The powers `2 ** (17 - i)` modulo 11 are the seventeen ISO 7064 MOD 11-2 weights 7, 9, 10, 5, 8, 4, 2, 1, 6, 3, 7, 9, 10, 5, 8, 4, 2. |
| ChinaId.CheckCharIsIso7064 | check_chinese_id.py:6-8 | The computed check character equals the last character exactly when the number satisfies ISO 7064 MOD 11-2: weighted sum plus check value ≡ 1 (mod 11), with `X` standing for 10. |
| ChinaId.CheckChinaId | check_chinese_id.py:1-8 | A wrong length fails the assertion; a non-digit among the first 17 characters fails at the first one; otherwise the answer is true exactly when the number is valid. |
| InfFiles.EqualSignInLine | archive_win_driver.py:12-21 | The quote-toggling scan answers true exactly when some `=` is preceded by an even number of `"`. |
| InfFiles.CommentDropped | archive_win_driver.py:39 | A cleaned line is the stripped text before the first `;`, contains no `;`, and neither starts nor ends with white space. |
| InfFiles.ParseLine | archive_win_driver.py:39-68 | One pass of the loop body gives the state, or the exception, of `Step`. |
| InfFiles.ParseInf | archive_win_driver.py:38-68 | The loop over all lines returns the dictionary the lines build, or the first line's exception. |
| InfFiles.FailureSticks | archive_win_driver.py:38-68 | Once a line raises, later lines do not change the outcome. |
| InfFiles.StepKeepsWellFormed | archive_win_driver.py:39-68 | A step keeps these facts: section names are distinct, the current section exists, keys within a section are distinct, and text is never empty. |
| InfFiles.ParseLinesWellFormed | archive_win_driver.py:38-68 | Every state the loop reaches has that shape. |
| InfFiles.SectionsAreDeclared | archive_win_driver.py:44-49 | The sections of the result are exactly the names declared by header lines, stripped and lower-cased. |
| InfFiles.CurrentSectionDeclared | archive_win_driver.py:44-45 | The current section was declared by an earlier header line. |
| InfFiles.StepKeys | archive_win_driver.py:44-49 | A step adds a section only for a header line, and removes none. |
| InfFiles.ContentBeforeSectionFails | archive_win_driver.py:59-63 | A non-blank, non-header line before any header raises (`config[None]`). |
| InfFiles.BlankLineKeepsState | archive_win_driver.py:39-42 | A line that is blank once its comment is dropped leaves any state unchanged. |
| InfFiles.BlankLinesChangeNothing | archive_win_driver.py:38-42 | A run of blank or comment-only lines anywhere in the file leaves the parse as it was before the run: the same state, or the same earlier exception. |
| InfFiles.AssignKeySets | archive_win_driver.py:56-61 | `config[section][key] = value` raises when the section holds text. Otherwise the key maps to the value, the section's other keys keep their presence and values, a new key goes last, and every other section and the current section are unchanged. |
| InfFiles.StringsLineSetsKey | archive_win_driver.py:51-57 | In `[Strings]`, a line is split at its first `=`, quoted or not. Its stripped key is set to its stripped value as AssignKeySets describes, replacing an earlier value. The line raises when `[Strings]` holds text. |
| InfFiles.StringsLineWithoutEqualsFails | archive_win_driver.py:51-52 | In `[Strings]`, a line without `=` raises at the unpacking. |
| InfFiles.KeyLineSetsKey | archive_win_driver.py:59-61 | In another section, a line with an `=` outside quotes is split at its FIRST `=`, even a quoted one. The stripped key is set to the stripped value as AssignKeySets describes, overwriting an earlier value. The line raises when the section holds text. |
| InfFiles.RedeclaredSectionIsEmpty | archive_win_driver.py:44-49 | A header line makes its section current and empty. A section declared again loses its content but keeps its place; a new one goes last. Every other section is unchanged. |
| InfFiles.TextLineAccumulates | archive_win_driver.py:62-68 | A line without an unquoted `=` becomes the text of an empty section, is appended after a newline to existing text, and is dropped when the section holds keys. The current section and the section names do not change. |
| InfFiles.Substitute | archive_win_driver.py:77-78 | The replacement loop replaces every `%key%` in the order of the `[Strings]` section. |
| InfFiles.SubstituteWithoutPercent | archive_win_driver.py:76-78 | Without a `%`, replacing leaves the string unchanged, so the guard only spares the `[Strings]` lookup. |
| InfFiles.ExtraVersion | archive_win_driver.py:73-85 | The result fails for a missing `DriverVer`, a `%` with no `[Strings]` dictionary, a resolved string without exactly one comma (with its piece count), or a date the parser rejects. Otherwise it is the parsed date and stripped version around the one comma. |
| DriverStats.TouchLookup | archive_win_driver.py:128 | `driver_stat.get(device, {})` adds the device when absent and changes no entry. |
| DriverStats.TouchKeys | archive_win_driver.py:128 | Touching a device puts it last when it is new, keeps the device order otherwise, and changes no device's versions. |
| DriverStats.AddItemLookup | archive_win_driver.py:130-132 | Appending an item adds its entry to its device and version only, puts the version last when it is new, keeps the device order, and keeps both levels' keys distinct. |
| DriverStats.AddItemNoEmptyVersion | archive_win_driver.py:130-132 | After an item is added, every version still holds at least one entry. |
| DriverStats.AddDevice | archive_win_driver.py:128-132 | After one device's items, that device is present (last if it is new), and each version's entries are the old ones followed by that device's items of the version, in order. The device's new versions follow its old ones in order of first occurrence, and no version is empty. |
| DriverStats.AddBatch | archive_win_driver.py:127-132 | After a batch, the devices are the old ones followed by the batch's new ones, and each entry list has the batch's matching items appended in order. Each device's new versions follow in order of first occurrence, and no version is empty. |
| DriverStats.AnalyseMultibatch | archive_win_driver.py:125-132 | The devices are exactly those some batch mentions, in order of first occurrence. Each device's versions are exactly the versions of its items, in order of first occurrence, and none is empty. Each (device, version) holds every matching item of all batches, in batch order and item order. |
| DriverStats.InsertKeysAppend | archive_win_driver.py:125-132 | Assigning the keys of two lists in turn gives the keys of assigning their concatenation. |
| DriverStats.InsertKeysMembers | archive_win_driver.py:128-131 | Assigning keys keeps the old ones, adds exactly the assigned ones and never repeats a key. |
| DriverStats.FirstOccurrencesMeaning | archive_win_driver.py:125-132 | The first-occurrence order of a list holds each of its elements exactly once and nothing else. |
| DriverStats.DriverStatCounts | archive_win_driver.py:153-159 | The three counters count the devices with one version, several versions and none, and add up to the number of devices. |
| DriverStats.LatestIndexIsFirstLatest | archive_win_driver.py:183-189 | The running maximum with strict `<` ends on the unique entry that is strictly later than every earlier entry and not earlier than any later one. |
| DriverStats.BelowMaxVersion | archive_win_driver.py:191-192 | A version is below the running maximum of a range exactly when it is below some version of the range. |
| DriverStats.SelectStep | archive_win_driver.py:183-189 | An entry with a strictly later date, or the first entry, becomes the choice; it is flagged when its version is below the greatest version seen. |
| DriverStats.KeepStep | archive_win_driver.py:183 | An entry that is not strictly later leaves the choice unchanged. |
| DriverStats.GroupEnd | archive_win_driver.py:191-192 | At the end of a version group, the greatest version is brought up to the group's version. |
| DriverStats.ScanGroup | archive_win_driver.py:181-192 | One version group keeps the loop's account of the choice. |
| DriverStats.SelectionMeaning | archive_win_driver.py:178-193 | There is no candidate exactly when the device has no entries. Otherwise the candidate is the entry with the first strictly latest date, with its device, date, version, hash and path. It is flagged exactly when a greater version occurs between the previous choice's group and its own. |
| DriverStats.SelectLatest | archive_win_driver.py:178-193 | The selection loop for one device yields `Selection`. |
| DriverStats.KeptCount | archive_win_driver.py:168-176 | Each device is either excluded or kept, and the kept devices are exactly those whose name does not start with an exclusion prefix. |
| DriverStats.SelectCandidates | archive_win_driver.py:165-193 | The candidate list holds the selection of every kept device, in dictionary order. The exclusion count is the number of excluded devices. Candidates plus excluded make all devices. |
| OpenVpn.FirstIndex | openvpn2to3cli.py:7 | `list.index`: the first position holding the line. |
| OpenVpn.Credentials | openvpn2to3cli.py:13-14 | The stripped credentials unpack into user and password when they are exactly two lines; otherwise unpacking fails with the number of lines. |
| OpenVpn.WithNameLine | openvpn2to3cli.py:6-11 | The option's name line is present afterwards. |
| OpenVpn.SplicedShape | openvpn2to3cli.py:6-18 | When the name line is present, the four-line block goes right after its first occurrence and everything else keeps its place. Otherwise the name line and block are appended at the end. |
| OpenVpn.InsertBefore | openvpn2to3cli.py:15-18 | Inserting at one position puts the new line before the lines inserted there earlier, so the four inserts produce the block in order. |
| OpenVpn.Config.Append | openvpn2to3cli.py:31 | `list.append` adds the line at the end. |
| OpenVpn.Config.Insert | openvpn2to3cli.py:15-18 | `list.insert(pos, line)` puts the line before position `pos`. |
| OpenVpn.Config.InsertAuth | openvpn2to3cli.py:4-19 | With malformed credentials, only the name line is added (when missing) before the unpacking raises. Otherwise the lines become the spliced configuration. |
| OpenVpn.Config.AppendOptions | openvpn2to3cli.py:34-41 | One `http-proxy-option` line is appended per option, then the data-ciphers lines when given. |
| OpenVpn.OptionLines | openvpn2to3cli.py:35-36 | One line per proxy option, in order. |
| OpenVpn.CipherLinesAppended | openvpn2to3cli.py:38-41 | The two optional cipher lines are appended in order. |
| OpenVpn.CombineConfig | openvpn2to3cli.py:21-43 | The additions come in their fixed order, each only when its option is given: user credentials, proxy, proxy credentials, proxy options, ciphers. |
| OpenVpn.CombinedFails | openvpn2to3cli.py:26-33 | combine_config fails exactly when a given credential file is not exactly two lines. |
| OpenVpn.CombinedAppends | openvpn2to3cli.py:29-41 | Without credentials the configuration is the file's lines followed by the proxy, proxy-option and cipher lines; with no options at all it is unchanged. |
| OpenVpn.CombinedLength | openvpn2to3cli.py:21-43 | The result grows by 4 or 5 lines per credential option, 1 for the proxy, 1 per proxy option and 1 per cipher option. |
| ExcelUnmerge.GetBaseState | excel_auto_unmerge.py:6-7 | The copied state has exactly the inherited attributes, with the cell's values. |
| ExcelUnmerge.CopyInherited | excel_auto_unmerge.py:6-11 | Assigning one state's base state over another gives the inherited attributes of the first and keeps the other attributes of the second. |
| ExcelUnmerge.Sheet.AssignState | excel_auto_unmerge.py:9-11 | Setting the attributes one at a time updates exactly that cell with the given attributes. Attributes are independent here; openpyxl's `data_type` inference is not modelled. |
| ExcelUnmerge.Sheet.UnmergeCells | excel_auto_unmerge.py:19 | The range is no longer merged, and the cells it covered, all but the top-left, are deleted. |
| ExcelUnmerge.ClearedState | excel_auto_unmerge.py:19 | After the deletion a covered cell reads as a blank cell, and every other cell reads as before. |
| ExcelUnmerge.RowCells | excel_auto_unmerge.py:23 | The column loop visits `(row, left)` to `(row, right)` in order. |
| ExcelUnmerge.RectCellsLength | excel_auto_unmerge.py:22-23 | The nested loops visit rows × columns cells. |
| ExcelUnmerge.RectCellsMembers | excel_auto_unmerge.py:22-23 | They visit exactly the cells within the bounds. |
| ExcelUnmerge.RectCellsDistinct | excel_auto_unmerge.py:22-23 | They visit no cell twice. |
| ExcelUnmerge.RectCellsFirst | excel_auto_unmerge.py:20-26 | The first cell visited, which the flag skips, is the top-left corner. |
| ExcelUnmerge.AssignedCellsShape | excel_auto_unmerge.py:17-27 | A range makes area − 1 assignments, to distinct cells: every cell of the range except its top-left corner. |
| ExcelUnmerge.FillCellsState | excel_auto_unmerge.py:22-27 | After the assignments, an assigned cell carries the state over its old attributes, and every other cell is unchanged. |
| ExcelUnmerge.UnmergeKeepsTotal | excel_auto_unmerge.py:16-27 | Unmerging keeps every cell with every attribute. |
| ExcelUnmerge.UnmergeOne | excel_auto_unmerge.py:16-27 | After one range, each cell it covers but the top-left is a blank cell with the top-left's inherited attributes: those come from the top-left and all others are blank. The top-left and cells outside the range are unchanged. Attributes are independent here; openpyxl's `data_type` inference is not modelled. |
| ExcelUnmerge.UnmergeAllMeaning | excel_auto_unmerge.py:13-27 | For ranges that share no cell, after all of them each covered cell is a blank cell with the inherited attributes of its own range's ORIGINAL top-left, and every other cell is unchanged. Attributes are independent here; openpyxl's `data_type` inference is not modelled. |
| ExcelUnmerge.DefaultInheritsValueOnly | excel_auto_unmerge.py:6-13 | With the default `inherit=["value"]`, a covered cell gets the top-left's value and is blank in every other attribute. Attributes are independent here; openpyxl's `data_type` inference is not modelled. |
| ExcelUnmerge.Sheet.FillRow | excel_auto_unmerge.py:23-27 | The column loop advances the visit order by one row and assigns every visited cell but the very first. |
| ExcelUnmerge.Sheet.FillRange | excel_auto_unmerge.py:20-27 | The nested loops with the skip flag assign the state to the range's cells other than the corner. |
| ExcelUnmerge.Sheet.AutoUnmergeSheet | excel_auto_unmerge.py:13-27 | Each range of the snapshot is unmerged and filled from its corner in turn, and afterwards nothing is merged. |
| ExcelUnmerge.AutoUnmergeWorkbook | excel_auto_unmerge.py:29-31 | Each sheet is unmerged as its own snapshot says, and no sheet keeps merged ranges. |
| PackagesAudit.TopLevel | python_project_packages_audit.py:30 | `name.split('.')[0]` has no dot; it is the whole name when there is no dot, otherwise the text before the first dot. |
| PackagesAudit.CollectRaw | python_project_packages_audit.py:19-26 | The loop collects the raw names of all statements. |
| PackagesAudit.ReduceNames | python_project_packages_audit.py:28-31 | The loop collects the top-level name of each raw name. |
| PackagesAudit.ExtraImports | python_project_packages_audit.py:19-34 | The result is the set of top-level names of the raw names. |
| PackagesAudit.RawImportsMeaning | python_project_packages_audit.py:19-26 | A raw name is one some statement contributes: an alias of an `import`, or the module of a `from` import. |
| PackagesAudit.RelativeImportAddsNothing | python_project_packages_audit.py:24-26 | A `from . import x` with no module contributes nothing. |
| PackagesAudit.ExtraImportsMeaning | python_project_packages_audit.py:8-34 | A name is reported exactly when it is the top-level part of a name some statement imports; reported names have no dot. |
| PackagesAudit.WalkPrunes | python_project_packages_audit.py:40-41 | The walk starts at the project directory and descends only through directories whose names are not ignored. |
| PackagesAudit.WalkVisitsKept | python_project_packages_audit.py:40-41 | Every subdirectory that is not ignored is visited. |
| PackagesAudit.WalkKeepsSubtree | python_project_packages_audit.py:40-41 | The whole walk of a subdirectory that is not ignored is part of its parent's walk. |
| PackagesAudit.WalkVisitsReachable | python_project_packages_audit.py:40-41 | The converse of WalkPrunes: every directory reached through subdirectories none of which is ignored, at any depth, is visited at its path. |
| PackagesAudit.PyFilesMeaning | python_project_packages_audit.py:44-45 | The files read in a directory are exactly its names ending in `.py`. |
| PackagesAudit.FirstFailingMeaning | python_project_packages_audit.py:47-56 | No file fails exactly when every file parses. The failing file reported is the first in walk order that does not parse. |
| PackagesAudit.AddFile | python_project_packages_audit.py:57-59 | Recording a file adds its imports to the known names. |
| PackagesAudit.AddImports | python_project_packages_audit.py:57-59 | The loop over one file's imports records that file under each name. |
| PackagesAudit.AggregateMeaning | python_project_packages_audit.py:44-59 | A file is listed under a name exactly when it is walked, parses and imports that name. |
| PackagesAudit.AggregateNonEmpty | python_project_packages_audit.py:57-59 | No name is recorded without a file. |
| PackagesAudit.PyStemShape | python_project_packages_audit.py:60 | `splitext` of a `.py` name drops the extension, unless only dots precede it. |
| PackagesAudit.StemsMeaning | python_project_packages_audit.py:60 | A package name from files is the stem of a file that parses. |
| PackagesAudit.DirNames | python_project_packages_audit.py:42 | The directory names recorded are exactly the base names of the visited directories. |
| PackagesAudit.ScanParsed | python_project_packages_audit.py:57-60 | A file that parses is recorded under each of its imports and adds its stem. |
| PackagesAudit.ScanIgnored | python_project_packages_audit.py:49-53 | With errors ignored, a file that does not parse is skipped. |
| PackagesAudit.ScanFails | python_project_packages_audit.py:54-56 | With errors not ignored, the first file that does not parse is the one that raises. |
| PackagesAudit.ScanFiles | python_project_packages_audit.py:44-60 | One directory's file loop either raises at its first failing file or extends the aggregate and packages with its files. |
| PackagesAudit.ExtraAllImports | python_project_packages_audit.py:36-61 | The walk loop returns `ExtraAll`: a raise at the first failing file when errors are not ignored, otherwise the aggregate and the directory and file package names. |
| PackagesAudit.ExtraAllAsWritten | python_project_packages_audit.py:47-56 | As written, either branch of the handler raises at the first file that does not parse. |
| PackagesAudit.IgnoreErrorHasNoEffect | python_project_packages_audit.py:47-56 | With an unparsable file, the code as written fails identically whether or not errors are ignored; the intended version succeeds only when they are. |
| PackagesAudit.BadFileExample | python_project_packages_audit.py:50-53 | For a project whose only file does not parse, the code as written raises even with errors ignored; the intended result is an empty aggregate. |
| PackagesAudit.ClassifyPartition | python_project_packages_audit.py:71-77 | Every imported name lands in exactly one class. A standard-library name is standard even when a project package has the same name. Third-party names keep their files. |
| PackagesAudit.Partition | python_project_packages_audit.py:71-77 | The loop builds the classification. |
| PackagesAudit.ClassifyImports | python_project_packages_audit.py:66-78 | classify_imports fails when the aggregation does; otherwise it is the classification of the aggregate. |
| OrderedDicts.PutMeaning | archive_win_driver.py:128-131 | After `d[k] = v`, `k` maps to `v`, every other key keeps its value, and the keys are the old ones, with `k` last if it is new. |
| OrderedDicts.PutGet | archive_win_driver.py:128-132 | After an assignment the key maps to the new value, other keys keep their values, keys stay distinct, and the key order is kept, with a new key last. |
| OrderedDicts.GetOrMeaning | archive_win_driver.py:128-131 | `d.get(k, default)` is the default when `k` is not a key, and otherwise the value of `k`'s first entry. |
| PyText.LStripShape | archive_win_driver.py:39 | `lstrip` removes exactly the leading white space. |
| PyText.RStripShape | archive_win_driver.py:39 | `rstrip` removes exactly the trailing white space. |
| PyText.SplitJoin | openvpn2to3cli.py:14 | Joining the pieces of `split(sep)` with the separator gives back the string. |
| PyText.SplitCount | archive_win_driver.py:81 | `split(sep)` gives one piece more than there are separators. |
| PyText.SplitOnce | archive_win_driver.py:52 | `split("=", 1)` gives the text before and after the first `=`, and fails when there is none. |
| PyText.LowerAscii | archive_win_driver.py:45 | `lower()` maps each character to its lower-case form, keeping the length. |
| PyText.ReplaceAbsent | archive_win_driver.py:78 | `replace` leaves a string in which the pattern does not occur unchanged. |
| PyText.StrLessTotal | archive_win_driver.py:184-192 | Any two distinct version strings are ordered one way or the other. |
| PyText.StrLessTransitive | archive_win_driver.py:184-192 | String order is transitive. |
| PyText.NatToStringRoundTrip | check_chinese_id.py:7 | `str()` of a natural number reads back as that number. |

## Left out

- Reading and writing files, command-line parsing, `input()`, `print`,
  `logging`, `chardet` encoding detection, `shutil` and `os.system` are not
  part of this model. Their inputs are parameters; show_atoms returns its
  lines instead of printing them.
- Mp4Atoms: the source's docstring says offsets are relative to the whole
  file, but the code decodes children from the parent's payload, so their
  offsets are relative to that payload. The model follows the code.
- Mp4Atoms: FullBox version/flags (`meta`, `mdhd`), `uuid` types and depth
  limits are not handled, because the code does not handle them. The
  duplicated `edts`/`udta` entries of the container set make no difference.
- Mp4Atoms.SerializeRoundTrip: only boxes with 8-byte headers and exact sizes
  are round-tripped. Extended and size-0 headers are covered by
  ExtendedHeader and SizeZeroIsLast instead.
- ChinaId.CheckChinaId: only ASCII `0`-`9` count as digits. Python's `int()`
  also accepts other Unicode decimal digits.
- PyText.LowerAscii: lowers ASCII letters only. Python's `lower()` also maps
  other scripts, which only matters for section names.
- InfFiles: the raw bytes' encoding detection and decoding are not modelled.
  The parser takes the decoded lines.
- InfFiles.ExtraVersion: `strptime` with `%m/%d/%Y` is the parameter
  `parseDate`, and dates are integers ordered like the dates they stand for.
- DriverStats: `get_inf_name` and `analyse_batch` list directories. Their
  results (the batches) are inputs.
- DriverStats.DriverStatCounts: print_driver_stat visits devices in sorted
  order; the model visits them in dictionary order, which leaves the counts
  unchanged. The per-entry lines it prints are not modelled.
- DriverStats.SelectCandidates: the report loop after the selection is left
  out. That loop crashes on a device without entries, whose candidate is
  `None`.
- DriverStats: `not release_latest` is modelled as "no date yet", since a
  date object is always true.
- OpenVpn: the existence assertions on the files and the unpacking of the
  proxy into address and port are left out; `None` stands for an option that
  is absent or empty.
- ExcelUnmerge.Sheet.UnmergeCells: openpyxl deletes the covered cells when it
  unmerges; the model reads a deleted cell as the sheet's blank cell state.
  openpyxl's other bookkeeping (the `MergedCell` placeholders and their
  borders) is not modelled.
- ExcelUnmerge.Sheet.AssignState: treats a cell's attributes as independent,
  so setting `value` changes only `Value`. In openpyxl, the `value` setter also
  re-infers `data_type` from the value, and sets `number_format` for dates.
  The model does not capture this coupling, nor the way the result then
  depends on whether `value` or `data_type` comes first in `inherit`.
  UnmergeOne, UnmergeAllMeaning and DefaultInheritsValueOnly inherit this gap.
- ExcelUnmerge.UnmergeOne: "all other attributes are blank" holds in the model
  only; openpyxl gives a covered cell the data type of the copied value
  whenever `value` is inherited.
- ExcelUnmerge.UnmergeAllMeaning: the same gap, for every covered cell of
  the sheet.
- ExcelUnmerge.DefaultInheritsValueOnly: with `inherit=["value"]`, openpyxl
  also sets the covered cell's `data_type` from the value (`'s'` for a
  string), where the model keeps the blank cell's.
- ExcelUnmerge.Sheet.AutoUnmergeSheet: the snapshot order of
  `merged_cells` is the parameter `order`.
- PackagesAudit: `ast.parse`/`ast.walk` become the list of import statements
  of each file (`None` when reading or parsing raises), and `os.walk` becomes
  a directory tree visited top-down in listed order. Symbolic links
  (`follow_links`) and `ignore_dirs=None` (which raises once a directory has
  a subdirectory) are not modelled. Paths are lists of components.
- PackagesAudit.ExtraAllImports: models the evident intent of the error
  handler; the behaviour as written is under Findings.
- ndjson2csv.py is not part of this model.

## Findings

| source | as written | input that shows it | evidently intended | confidence | as-written member | corrected member |
|---|---|---|---|---|---|---|
| python_project_packages_audit.py:47-56 | Both branches of the handler for a file that does not parse log `file_name`, a name never bound, so NameError is raised whether or not `ignore_error` is set. | A project `proj` whose only file `bad.py` does not parse, with `ignore_error=True`. | With `ignore_error`, skip the file and go on; without it, re-raise. | high (not executed) | PackagesAudit.ExtraAllAsWritten | PackagesAudit.ExtraAllImports |
