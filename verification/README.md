# Verification of the QModem flashing and connection tools

A Dafny model of the parts of QModem that move bytes to and from a cellular module:

- **qfirehose**, the firmware flasher: programming of Android sparse images and plain images, the
  whole flashing run, the widened erase, the MD5 of the firmware files, the HDLC link with its CRC,
  the Sahara upload of the flash programmer, and the USB-over-TCP tunnel;
- **quectel-CM**, the connection manager: the AT channel (line reader, dispatch of lines to
  commands, tokenizer), the QMI transport (building and finding TLVs, matching of answers to
  requests) and the intrusive list.

Files are byte sequences. Devices are adversaries: they answer anything, or nothing. Threads are
interleaved steps, each taken with the mutex held. State that the source changes in place is a class
whose methods are proved against functions of the old state; what the source promises is then proved
about those functions, over every input, every run or every interleaving.

## Where the code does less than it seems to promise

Each of these is proved as an if-and-only-if, or with the whole failing family:

- sparse images with data behind a leading don't-care chunk, with a gap and blocks that are not
  eight sectors, with a run that starts at sector 2^32 or beyond, or with fill chunks are not written
  as the format says; the one fill chunk that is written right is a single block of one sector, of
  zeros and alone, or any such block if sectors have four bytes (`PreservesIff`, `SafeIff`);
- a payload limit that is not a multiple of the sector size pads in the middle, and past the
  payload buffer (`FaithfulIff`);
- gpt_empty0.bin is announced with one sector less than is sent for some sizes (`GptSectorsIff`);
- on nand a program is sent twice when its start sector wraps to zero (`ExactlyOnceIff`,
  `WrapsTwice`), and a run succeeds although commands were never sent (`SentOnceIff`,
  `LostUnnoticed`);
- the widened erase misses partitions that reach sector 2^32, and covers nothing if its line has
  no sector count (`EraseAllCoversIff`);
- a piece of the flash programmer that is cut short by the USB write leaves a hole in what the
  device gets, and a DONE that was never sent goes unnoticed (`BurstPrefixIff`, `Success`);
- a lone opening flag followed by a stale flag in the receive buffer adds a zero byte
  (`ReceivePacket`);
- raw data left by an AT command that timed out is sent under the next one (`WritesOwnIff`,
  `StaleRawData`);
- a bare prompt leaves the line cursor on whatever the buffer held behind it (`PromptHarmlessIff`);
- a final response that is overtaken by another before the issuer wakes is lost
  (`NothingLostIff`);
- an empty unquoted last token is dropped (`InvertsJoinIff`);
- a QMI reply exactly one round of ids late is taken for the current answer (`ReplyTakenIff`);
- a tunnel read that gets a part of a header, or times out inside a frame, loses step with the
  stream (`QtcpRead`), and a transfer the device takes in part goes unnoticed (`ReachedIff`).

## Layout

| files | content |
|---|---|
| `SparseImage`, `SparseProgram`, `SparseMeaning`, `SparseWrap`, `SparseTheorem`, `SparseHeaders`, `SparseSectors` | sparse format, the tool's commands, and when the two agree |
| `RawImage` | plain images |
| `FirehoseRun`, `FirehoseCounts` | the flashing run over the command table, and how often and in which order each command is tried |
| `EraseAll` | attributes in command text, and the erase that covers everything |
| `Md5Spec`, `Md5`, `Md5Vectors` | RFC 1321, the optimised context, and two digests of the RFC |
| `Crc16`, `StreamLink` | CRC and HDLC framing |
| `Sahara` | upload of the flash programmer |
| `Tunnel` | USB over TCP |
| `AtResponse`, `AtChannel`, `AtLines`, `AtTok` | the AT channel |
| `QmiTransport`, `QmiTlv` | QMI requests, answers and TLVs |
| `QList` | the circular list |
| `Arith`, `Sequences`, `LittleEndian`, `Ctype`, `Options` | shared facts and types |

## Model

| member | source | states |
|---|---|---|
| SparseProgram.Programmer.ProcessSparseProgram | qmodem/application/qfirehose/src/firehose_protocol.c:1237-1434 | From the bytes of any image whose fields fit, the loop over the chunk headers leaves exactly the totals of the value-level scan over its chunks |
| SparseProgram.ScanResult | qmodem/application/qfirehose/src/firehose_protocol.c:1237-1434 | For every chunk list, the tables are the totals of each run of data chunks and of the don't-care blocks the command loop will skip behind each run but the last |
| SparseProgram.Programmer.ProcessProgram | qmodem/application/qfirehose/src/firehose_protocol.c:1436-1516 | On a well-formed image that fits the tables, the commands sent, and the bytes streamed for each, are those of the splitting of the chunk list into runs, start sectors reduced to 32 bits; the start sector is left at that of the last command |
| SparseProgram.Programmer.SendProgram | qmodem/application/qfirehose/src/firehose_protocol.c:1444-1475 | One command: start in 32 bits, sector count rounded up, file offset, byte count and streamed bytes of its run, all fields of the command updated in place |
| SparseProgram.Programmer.SendRawmodeImage | qmodem/application/qfirehose/src/firehose_protocol.c:1047-1140 | The chunk-by-chunk loop over the file streams the payloads of the chunks from the command's offset on, padded to sectors, until the announced bytes are out |
| SparseProgram.Programmer.SendChunk | qmodem/application/qfirehose/src/firehose_protocol.c:1078-1131 | One chunk in pieces of the payload limit is the chunk padded with zeros to whole sectors |
| SparseProgram.FlattenSplit | qmodem/application/qfirehose/src/firehose_protocol.c:1436-1516 | The runs and the gaps around them make up the chunk list again: nothing is lost or reordered by splitting |
| SparseTheorem.PreservesIff | qmodem/application/qfirehose/src/firehose_protocol.c:1237-1516 | Main theorem: for every well-formed image that fits the tables, sectors of at least four bytes and every start sector, programming has on every flash the effect of writing the unsparsed image if and only if no start sector wraps at 2^32 and the image is supported: only don't-care chunks, or no don't-care chunk in front of data, blocks of eight sectors unless no gap is skipped, and no fill chunk but single blocks of one sector, in four-byte sectors or one of zeros in the whole image; stated of all images but those that wrap in blocks of fewer than eight sectors, which LuckyWrap shows to be undecided by it |
| SparseHeaders.SafeIff | qmodem/application/qfirehose/src/firehose_protocol.c:1237-1516 | For every list of chunk headers, with no exception: whatever the chunks hold the image is written right, if and only if it has no data, or starts with data, has blocks of eight sectors or a single run, no fill chunk but single blocks in sectors of four bytes, and no start sector that wraps |
| SparseHeaders.LuckyWrap | qmodem/application/qfirehose/src/firehose_protocol.c:1468-1468 | An image the tool does not support, in blocks of one sector, whose start sectors wrap so that two equal runs change places and all is written right, on every flash |
| SparseHeaders.MarkMisplaced | qmodem/application/qfirehose/src/firehose_protocol.c:1461-1471 | Two runs in blocks of fewer than eight sectors: a mark at the head of the second run is written where the image does not have it, wrapped or not, since a gap of g blocks at eight sectors a block is never g blocks of fewer, modulo 2^32 |
| SparseHeaders.LeadNotPreserved | qmodem/application/qfirehose/src/firehose_protocol.c:1436-1516 | A leading gap is written over by the first command, wherever the others go |
| SparseWrap.EndMissing | qmodem/application/qfirehose/src/firehose_protocol.c:1468-1468 | In blocks of eight sectors or more, once a start sector wraps, no command writes the last sector of the image |
| SparseWrap.RawPreservesIff | qmodem/application/qfirehose/src/firehose_protocol.c:1436-1516 | For raw and don't-care chunks alone, and every sector size: written right if and only if no start sector wraps and the image starts with data and has blocks of eight sectors or no data behind a gap; with the same exception |
| SparseMeaning.LeadOverwritten | qmodem/application/qfirehose/src/firehose_protocol.c:1436-1516 | The failing family of a leading don't-care chunk: the sector where it starts is written by the tool and not by the image |
| SparseMeaning.GapMiscounted | qmodem/application/qfirehose/src/firehose_protocol.c:1461-1471 | The failing family of blocks that are not eight sectors: the run behind a gap goes to the wrong place |
| SparseMeaning.FillNotPreserved | qmodem/application/qfirehose/src/firehose_protocol.c:1237-1434 | With a fill chunk and blocks of two sectors or more, fewer sectors are announced than the image has data, so an empty flash never ends up right |
| SparseTheorem.BadRunNotPreserved | qmodem/application/qfirehose/src/firehose_protocol.c:1237-1475 | The same in blocks of one sector, when a fill chunk has several blocks, or a run several fill chunks in sectors over four bytes |
| SparseTheorem.OneRunIffFits | qmodem/application/qfirehose/src/firehose_protocol.c:1047-1140 | In blocks of one sector an image of one run is written right if and only if each chunk, as streamed, is what it means: a fill chunk its four bytes padded with zeros against the value repeated |
| SparseMeaning.OffsetIsRunHeader | qmodem/application/qfirehose/src/firehose_protocol.c:1436-1516 | The file offset of command i, as sent, is the position of the header of the first chunk of run i |
| SparseMeaning.SameWrites | qmodem/application/qfirehose/src/firehose_protocol.c:1436-1516 | Skipping eight sectors a block and skipping the block size write the same flash for units that start with data |
| SparseSectors.SectorHolds | qmodem/application/qfirehose/src/firehose_protocol.c:36-62 | What an image means, sector by sector and whatever the flash held: sector j of a raw chunk holds its bytes from j times the sector size on, a fill chunk its four bytes over and over, and the sectors of a don't-care chunk what they held |
| SparseSectors.Outside | qmodem/application/qfirehose/src/firehose_protocol.c:36-62 | Sectors before and behind an image keep what they held |
| SparseImage.HeaderBytes | qmodem/application/qfirehose/src/firehose_protocol.c:36-52 | The head of the file by literal bytes: magic, version, header sizes 28 and 12, block size, blocks and chunks at 12, 16 and 20, low-order bytes first |
| SparseImage.ChunkBytes | qmodem/application/qfirehose/src/firehose_protocol.c:54-62 | A chunk by literal bytes: type 0xCAC1, 0xCAC2 or 0xCAC3, blocks, its length with the twelve bytes of the header, then its payload |
| RawImage.SendRawmodeImage | qmodem/application/qfirehose/src/firehose_protocol.c:1141-1199 | The streaming loop ends; the pieces sent are the specified ones, or a proper beginning of them after a short write, which is then a failure; success exactly when they add up to the bytes meant to be sent |
| RawImage.AlignedPieces | qmodem/application/qfirehose/src/firehose_protocol.c:1141-1199 | With a payload limit of whole sectors the pieces are the range of the file padded once at its end, each within the limit and of whole sectors |
| RawImage.FaithfulIff | qmodem/application/qfirehose/src/firehose_protocol.c:1141-1199 | Every file of n bytes arrives as itself padded once at the end, no piece being padded past the payload buffer, if and only if the limit is positive and either a multiple of the sector size or at least n rounded up to sectors |
| RawImage.ZerosInside | qmodem/application/qfirehose/src/firehose_protocol.c:1141-1199 | For every file longer than a limit that ends inside a sector, the first piece is padded past the limit, and zeros stand between the limit and the end of that sector; a file with another byte there arrives wrong |
| RawImage.SectorsAnnounced | qmodem/application/qfirehose/src/firehose_protocol.c:588-618 | The bytes sent fill exactly the sectors announced by the fixup, and no piece exceeds the limit |
| RawImage.GptSectorsIff | qmodem/application/qfirehose/src/firehose_protocol.c:1030-1043 | For gpt_empty0.bin they do if and only if dropping 512 bytes frees exactly one sector, a condition on the length and the sector size |
| RawImage.GptSectorSizes | qmodem/application/qfirehose/src/firehose_protocol.c:1030-1043 | It always holds for 512-byte sectors, and an 8192-byte file with 4096-byte sectors is a counterexample |
| FirehoseRun.Flasher.SendConfigure | qmodem/application/qfirehose/src/firehose_protocol.c:844-888 | Whether or not the sends succeed: the payload limit kept is one the device acknowledged, after at most one counter-offer made with a NAK; otherwise the exchange is over |
| FirehoseRun.Flasher.WaitResponse | qmodem/application/qfirehose/src/firehose_protocol.c:749-763 | Any answer of the device, or silence, is recorded; the protocol state follows |
| FirehoseRun.Flasher.ProcessSimple | qmodem/application/qfirehose/src/firehose_protocol.c:1204-1235 | An erase, patch or vendor command is tried, its send being unchecked; it is done when acknowledged, and otherwise ends the run |
| FirehoseRun.Flasher.ProgramOne | qmodem/application/qfirehose/src/firehose_protocol.c:1477-1513 | A program command is tried, its send being unchecked; it counts only after ACK into raw mode, the whole payload, and ACK out of raw mode |
| FirehoseRun.Flasher.ProcessProgram | qmodem/application/qfirehose/src/firehose_protocol.c:1436-1560 | A line tries one command for each run, in order, none if its sparse file could not be scanned, and leaves the start sector of the line moved to its last run, modulo 2^32 |
| FirehoseRun.Flasher.SimplePass | qmodem/application/qfirehose/src/firehose_protocol.c:2184-2241 | A pass over the table tries exactly the lines it selects, in order; which lines those are is counted without it in FirehoseCounts |
| FirehoseRun.Flasher.ProgramPass | qmodem/application/qfirehose/src/firehose_protocol.c:2243-2266 | The same for programs, on a table whose start sectors change during the pass |
| FirehoseRun.Flasher.Run | qmodem/application/qfirehose/src/firehose_protocol.c:2180-2296 | In every run, with any device and any outcome of each send: success means the commands tried are exactly the schedule, whose every command is counted and ordered by the conditions of the source in FirehoseCounts, and the device is idle; failure means the protocol was stopped |
| FirehoseRun.ProgramCount | qmodem/application/qfirehose/src/firehose_protocol.c:2243-2266 | How often a successful run comes to each program command: never if the file was not scanned, twice on nand if the moved start sector wraps to zero, once otherwise |
| FirehoseRun.ExactlyOnceIff | qmodem/application/qfirehose/src/firehose_protocol.c:2243-2266 | Each program command is tried exactly once, if and only if its file was scanned and its start sector does not wrap to zero on nand |
| FirehoseRun.SentOrLost | qmodem/application/qfirehose/src/firehose_protocol.c:765-842 | Each command tried either went out whole or was lost |
| FirehoseRun.SentOnceIff | qmodem/application/qfirehose/src/firehose_protocol.c:1477-1519 | A program command of a successful run went out exactly once, if and only if its file was scanned and no try was lost, or one of the two when its start sector wraps on nand |
| FirehoseRun.AllSentOnceIff | qmodem/application/qfirehose/src/firehose_protocol.c:1436-1560 | Over a table of scanned lines that do not wrap, all program commands went out exactly once if and only if none was lost |
| FirehoseRun.LostUnnoticed | qmodem/application/qfirehose/src/firehose_protocol.c:2286-2296 | A run over one program line that succeeds although its only program command was never sent |
| FirehoseRun.WrapsTwice | qmodem/application/qfirehose/src/firehose_protocol.c:1461-1471 | A well-formed image at sector 8 with 512-byte sectors and a gap of 2^29 - 2 blocks: its start sector wraps to zero and the passes on nand come to both its commands twice |
| FirehoseRun.WrapNotPreserved | qmodem/application/qfirehose/src/firehose_protocol.c:1468-1468 | The same image is a supported one that fits the tables, its second command is sent to sector 0, and it is not written right |
| FirehoseRun.SectorZeroErasedFirst | qmodem/application/qfirehose/src/firehose_protocol.c:2182-2241 | On nand every sector-0 erase comes before every other erase and every program |
| FirehoseRun.SectorZeroProgrammedLast | qmodem/application/qfirehose/src/firehose_protocol.c:2243-2266 | On nand every sector-0 program comes after every other program that does not wrap |
| FirehoseRun.PatchesLast | qmodem/application/qfirehose/src/firehose_protocol.c:2243-2278 | Every program comes before every patch |
| FirehoseRun.StreamOnlyInRawMode | qmodem/application/qfirehose/src/firehose_protocol.c:1477-1513 | In every log the protocol allows, payload follows directly on ACK rawmode=true for the same command |
| FirehoseRun.NextCommandWaits | qmodem/application/qfirehose/src/firehose_protocol.c:1477-1556 | After a payload nothing else happens before ACK rawmode=false |
| FirehoseRun.SparseStarts | qmodem/application/qfirehose/src/firehose_protocol.c:1461-1471 | The start sectors of a sparse line during the run are those of the commands sent for its image, both modulo 2^32 |
| FirehoseCounts.EraseCount | qmodem/application/qfirehose/src/firehose_protocol.c:2182-2241 | How often an erase line is tried: once before everything if its start sector is 0 on nand or when all is erased, and once more unless all is erased, its sector size is 0, or it is for sector 0 on nand |
| FirehoseCounts.VendorCount | qmodem/application/qfirehose/src/firehose_protocol.c:2208-2218 | A vendor line is tried exactly once |
| FirehoseCounts.PatchCount | qmodem/application/qfirehose/src/firehose_protocol.c:2268-2278 | A patch line is tried once when there are patches, otherwise never |
| FirehoseCounts.BootAndReset | qmodem/application/qfirehose/src/firehose_protocol.c:2280-2287 | The boot drive is set exactly once, directly before the reset, unless on nand, where it is not; the reset is the last command and happens once |
| FirehoseCounts.NothingElse | qmodem/application/qfirehose/src/firehose_protocol.c:2180-2296 | Nothing else is tried: every command belongs to a line of its kind, a program command to a run its line has |
| FirehoseCounts.ErasesInOrder | qmodem/application/qfirehose/src/firehose_protocol.c:2222-2241 | Erases of other sectors than 0 come in the order of the table |
| FirehoseCounts.ProgramsInOrder | qmodem/application/qfirehose/src/firehose_protocol.c:2243-2266 | So do programs of other sectors that do not wrap to 0, and the runs of each line |
| FirehoseCounts.ErasesBeforePrograms | qmodem/application/qfirehose/src/firehose_protocol.c:2182-2266 | Every erase and every vendor command comes before every program |
| FirehoseCounts.CommandAcknowledged | qmodem/application/qfirehose/src/firehose_protocol.c:1204-1235 | In every log the protocol allows, an erase, vendor or patch command is directly followed by ACK before anything else, and a program command by ACK into raw mode and then its own payload |
| FirehoseCounts.LimitAgreed | qmodem/application/qfirehose/src/firehose_protocol.c:844-888 | In every run the payload limit kept is one the tool asked for in its last configure command and the device acknowledged |
| EraseAll.FindValue | qmodem/application/qfirehose/src/firehose_protocol.c:192-220 | The search gives the span of the specification: first occurrence of the key, an equals sign or a quote behind it, value up to the next quote |
| EraseAll.ValueRead | qmodem/application/qfirehose/src/firehose_protocol.c:192-240 | An attribute written as key, equals sign and quoted value is read as that value, wherever it stands, if the key does not occur before it and the value has fewer than 64 characters; a longer one is not read |
| EraseAll.EraseRead | qmodem/application/qfirehose/src/firehose_protocol.c:284-296 | The start, the count and the last sector of an erase are the numbers, in 32 bits, written at start_sector, num_partition_sectors and last_sector |
| EraseAll.StrStr | qmodem/application/qfirehose/src/firehose_protocol.c:194-194 | The first occurrence of the key, or none |
| EraseAll.SetThenFind | qmodem/application/qfirehose/src/firehose_protocol.c:242-268 | After setting an attribute, searching it again finds the new number at the same place, for every line that has the attribute |
| EraseAll.FieldSet | qmodem/application/qfirehose/src/firehose_protocol.c:242-296 | Set, then parsed: the number comes back, for every 32-bit value |
| EraseAll.OthersKept | qmodem/application/qfirehose/src/firehose_protocol.c:242-268 | Every other attribute without digits in its name, whose text is apart, keeps its value and moves with the text |
| EraseAll.AbsentKept | qmodem/application/qfirehose/src/firehose_protocol.c:242-268 | An attribute that was absent stays absent |
| EraseAll.AtoiOfDigits | qmodem/application/qfirehose/src/firehose_protocol.c:261-261 | Printing a number in decimal and parsing it is the identity |
| EraseAll.AtoiSigned | qmodem/application/qfirehose/src/firehose_protocol.c:290-294 | A sign in front of the digits, and blanks in front of a number |
| EraseAll.Command.SetValue | qmodem/application/qfirehose/src/firehose_protocol.c:242-268 | The text in the command is replaced in place as specified |
| EraseAll.Command.Widen | qmodem/application/qfirehose/src/firehose_protocol.c:2194-2202 | The text of a sector-0 erase is rewritten so that, parsed again, it has the same start, and max sectors if it had a count; a line without one keeps none |
| EraseAll.WidenedReads | qmodem/application/qfirehose/src/firehose_protocol.c:2194-2202 | Parsing the rewritten text: start unchanged, count max if the line had a count and zero otherwise, last sector max - 1 when it was given |
| EraseAll.LargestEnd | qmodem/application/qfirehose/src/firehose_protocol.c:2156-2160 | The pass over the table finds the largest 32-bit sum of start and count |
| EraseAll.EraseAllCoversIff | qmodem/application/qfirehose/src/firehose_protocol.c:2184-2206 | The rewritten erase, read from its text, which has to fit the line buffer, covers the sectors of every erase in the table: if its line has a count, if and only if no start plus count reaches 2^32; without one, if and only if every erase is empty |
| EraseAll.RoomForTwenty | qmodem/application/qfirehose/src/firehose_protocol.c:2194-2202 | Rewriting adds at most twenty characters, so the text fits whenever that many are to spare |
| EraseAll.OverflowUncovered | qmodem/application/qfirehose/src/firehose_protocol.c:2156-2160 | A table of two partitions for which it does not |
| Md5.OptFIsF | qmodem/application/qfirehose/src/md5.c:15-15 | The optimised F equals the F of section 3.4 of RFC 1321 |
| Md5.OptGIsG | qmodem/application/qfirehose/src/md5.c:16-16 | The optimised G equals the G of section 3.4 of RFC 1321 |
| Md5.UnrolledIsRfc | qmodem/application/qfirehose/src/md5.c:39-148 | The 64 unrolled steps, with their message words, constants and rotations, are the 64 operations of section 3.4 |
| Md5.CounterCarry | qmodem/application/qfirehose/src/md5.c:161-170 | The 29-bit counter with its carry holds the byte count after every call, the upper half modulo 2^32 |
| Md5.Context.constructor | qmodem/application/qfirehose/src/md5.c:150-159 | A new context has absorbed the empty message |
| Md5.Context.Body | qmodem/application/qfirehose/src/md5.c:39-148 | Running the block function over data folds the RFC block function over its 64-byte blocks |
| Md5.Context.Hash | qmodem/application/qfirehose/src/md5.c:161-195 | A context that has absorbed msg has absorbed msg + data: counters, state words and buffered partial block |
| Md5.Context.End | qmodem/application/qfirehose/src/md5.c:197-250 | The result is the RFC 1321 digest of the absorbed message, for messages of every length: byte k is byte k % 4, low-order first, of word A, B, C or D of the fold over the padded message, word by word as the source writes them; the context is wiped |
| Md5.Context.Pad | qmodem/application/qfirehose/src/md5.c:197-228 | The buffer becomes the last block of the padded message of sections 3.1 and 3.2, the blocks before it having been absorbed |
| Md5.LengthBytes | qmodem/application/qfirehose/src/md5.c:220-228 | The eight bytes written from the two halves are the low 64 bits of the length in bits |
| Md5.DigestOfPieces | qmodem/application/qfirehose/src/md5.c:150-250 | However a message is cut into calls, the digest is that of the whole message |
| Md5.Md5Sum | qmodem/application/qfirehose/src/md5.c:252-276 | The loop over 256-byte reads gives the digest of the file and its size as a 32-bit int, which wraps from 2^31 on; the digest itself is pinned by the vectors below |
| Md5Vectors.DigestOfEmpty | qmodem/application/qfirehose/src/md5.c:150-250 | The digest of the empty message is d41d8cd98f00b204e9800998ecf8427e, as section A.5 of RFC 1321 has it |
| Md5Vectors.DigestOfAbc | qmodem/application/qfirehose/src/md5.c:150-250 | The digest of "abc" is 900150983cd24fb0d6963f7d28e17f72, likewise |
| Crc16.Crc16Calc | qmodem/application/qfirehose/src/stream_download_protocol.c:68-95 | The table loop computes the complemented bit-serial CRC with polynomial 0x8408 and seed 0xFFFF, for every byte string |
| Crc16.TableIsShift8 | qmodem/application/qfirehose/src/stream_download_protocol.c:44-66 | Each of the 256 table entries is eight shifts of its index |
| Crc16.TableStepIsBitSerial | qmodem/application/qfirehose/src/stream_download_protocol.c:68-95 | One table step is eight bit steps, for every register and byte |
| Crc16.GoodFcs | qmodem/application/qfirehose/src/stream_download_protocol.c:97-103 | Over any message followed by its FCS the register is 0xF0B8, the good FCS of appendix C.2 of RFC 1662 |
| Crc16.CheckValue | qmodem/application/qfirehose/src/stream_download_protocol.c:68-95 | The FCS of the nine characters 123456789 is 0x906E, the published check value of this CRC |
| Crc16.CrcLinear | qmodem/application/qfirehose/src/stream_download_protocol.c:68-95 | The register is linear over exclusive or in seed and message |
| Crc16.CollideIff | qmodem/application/qfirehose/src/stream_download_protocol.c:68-95 | Two equally long messages collide if and only if their difference alone leaves a zero register |
| Crc16.BurstDetected | qmodem/application/qfirehose/src/stream_download_protocol.c:68-95 | Messages that differ only within sixteen consecutive bits, hence within two adjacent bytes, never collide |
| Crc16.CorruptFrameDetected | qmodem/application/qfirehose/src/stream_download_protocol.c:97-103 | A frame changed only within sixteen consecutive bits, FCS included, never shows the good FCS |
| Crc16.SeventeenBitsUndetected | qmodem/application/qfirehose/src/stream_download_protocol.c:68-95 | The bound is sharp: the seventeen-bit generator is never seen, at any position |
| StreamLink.Link.ComposePacket | qmodem/application/qfirehose/src/stream_download_protocol.c:105-123 | The transmit buffer holds command, parameter and data |
| StreamLink.Link.ComputeReplyCrc | qmodem/application/qfirehose/src/stream_download_protocol.c:97-103 | The FCS is appended low byte first |
| StreamLink.Link.SendPacket | qmodem/application/qfirehose/src/stream_download_protocol.c:136-191 | The bytes that went out are a beginning of the stuffed packet between its flags; success exactly when they are all of it |
| StreamLink.UnstuffStuff | qmodem/application/qfirehose/src/stream_download_protocol.c:193-224 | Unstuffing inverts stuffing for every payload, in any position |
| StreamLink.WireFlags | qmodem/application/qfirehose/src/stream_download_protocol.c:136-191 | On the line flags stand only at the two ends of a frame |
| StreamLink.StuffedAs | qmodem/application/qfirehose/src/stream_download_protocol.c:136-175 | 0x7E goes out as 0x7D 0x5E, 0x7D as 0x7D 0x5D, and every other byte as itself |
| StreamLink.FramedAs | qmodem/application/qfirehose/src/stream_download_protocol.c:136-191 | A frame is the stuffed packet with 0x7E behind it, and one in front if the flag is set |
| StreamLink.Link.UnstuffInPlace | qmodem/application/qfirehose/src/stream_download_protocol.c:193-224 | The in-place loop computes the unstuffed bytes, its write index never passing its read index |
| StreamLink.Link.RemoveEscape | qmodem/application/qfirehose/src/stream_download_protocol.c:193-224 | Leading flags are dropped, the rest is unstuffed in place, bytes beyond are left alone; the cases of nothing but flags are given exactly |
| StreamLink.Link.ReceivePacket | qmodem/application/qfirehose/src/stream_download_protocol.c:226-264 | For every payload and every cut of its wire bytes into reads, the frame is delivered with its closing flag, exactly unless the first read is a lone flag and the byte left behind it from earlier is a flag, when a zero byte comes in front; short input is refused |
| Sahara.Host.Rx | qmodem/application/qfirehose/src/sahara.c:64-137 | A packet or its absence is recorded as the device gave it |
| Sahara.Host.SendHelloResponse | qmodem/application/qfirehose/src/sahara.c:233-275 | The answer repeats version and supported version, in mode zero; it counts as sent if any byte of it went out |
| Sahara.Host.ImageTransfer | qmodem/application/qfirehose/src/sahara.c:179-231 | The pieces of the requested range are offered in order until the file ends or nothing of a piece goes out; a piece cut short counts as sent; success means the whole range was offered; 64-bit requests are cut to 32 bits |
| Sahara.Host.Greet | qmodem/application/qfirehose/src/sahara.c:284-302 | Success exactly when the first packet heard, after at most one nudge, is a hello and a byte of the answer went out; otherwise nothing more is sent but a reset |
| Sahara.Host.Serve | qmodem/application/qfirehose/src/sahara.c:304-344 | Requests are served until the end of an image with status 0 and the DONE packet, or the run is over |
| Sahara.Host.FlashAll | qmodem/application/qfirehose/src/sahara.c:277-375 | Every run with any device comes to one of three ends and follows the protocol step by step; it returns 1 if and only if an answer to a hello was begun and, on the packets as sent by the device, the first that is neither a request nor a hello is an end of image with status 0, and the next says status 1, or status 0 with that image being 13, 7 or 21 |
| Sahara.ConfirmsIff | qmodem/application/qfirehose/src/sahara.c:304-374 | The first thing heard behind the hello that is neither a request nor a hello decides whether the device confirms |
| Sahara.ImageBytes | qmodem/application/qfirehose/src/sahara.c:203-228 | At every moment of every run: the pieces offered in a burst are the requested part of the file from its start, and the device got of each piece as many bytes as were written |
| Sahara.HelloFirst | qmodem/application/qfirehose/src/sahara.c:277-344 | Before any image byte a hello was received and an answer begun, and no DONE was tried; pieces are at most 4096 bytes |
| Sahara.BurstPrefixIff | qmodem/application/qfirehose/src/sahara.c:203-228 | For any counts of bytes written, the device has the start of the requested range, whatever the file holds, if and only if every piece with something behind it was written whole |
| Sahara.BurstInOrder | qmodem/application/qfirehose/src/sahara.c:203-228 | So in every run a burst without such a hole is a beginning of the requested range |
| Sahara.ShortWriteLeavesHole | qmodem/application/qfirehose/src/sahara.c:221-226 | A request for 8192 bytes whose first piece is cut after one byte: the host goes on to the end, and the device does not have the start of the file |
| Sahara.BurstWholeIff | qmodem/application/qfirehose/src/sahara.c:203-228 | When the device is heard again after a burst in which no piece came to nothing, it has the whole range the file holds if and only if every piece was written whole |
| Sahara.DoneAfterEnd | qmodem/application/qfirehose/src/sahara.c:316-333 | A DONE is tried on an end-of-image with status 0, and no other DONE was tried before it |
| Sahara.Success | qmodem/application/qfirehose/src/sahara.c:304-374 | A successful run tried exactly one DONE, delivered if and only if its write was whole, and answered the hello |
| Sahara.SuccessUnheard | qmodem/application/qfirehose/src/sahara.c:304-374 | A run that succeeds although one byte of the hello response and none of the DONE went out |
| Tunnel.FullRead | qmodem/application/qfirehose/src/usb2tcp.c:67-95 | Partial reads of any size, of bytes that arrive before or while it waits, add up to a prefix of the stream; complete exactly when the size is reached, as it is when that many had arrived |
| Tunnel.FullWrite | qmodem/application/qfirehose/src/usb2tcp.c:97-126 | Partial writes of any size add up to a prefix of the buffer |
| Tunnel.SendFrame | qmodem/application/qfirehose/src/usb_linux.c:789-824 | A complete send puts exactly one frame, header and payload, on the stream; an incomplete one a prefix of it |
| Tunnel.HeaderBytes | qmodem/application/qfirehose/src/usb_linux.c:789-824 | A header is the bytes 0x78 0x56 0x34 0x12 and the length of the payload, low-order byte first |
| Tunnel.Upload.Forward | qmodem/application/qfirehose/src/usb2tcp.c:306-333 | What the device sends is framed behind the frames already under way |
| Tunnel.Upload.QtcpRead | qmodem/application/qfirehose/src/usb_linux.c:740-787 | A read gives the next bytes of the payloads, never across a frame: the smaller of the size asked for and the rest of the frame under way, or of the next frame, and nothing while no header has arrived; the static length stays equal to the unread rest of the frame if and only if the transfer was complete, with no header and no payload cut in two |
| Tunnel.Upload.NextFrame | qmodem/application/qfirehose/src/usb_linux.c:746-761 | One read of the header: none there leaves all as it was, a whole one opens the next frame, and a part of one is lost, exactly then putting the reader out of step |
| Tunnel.Download.QtcpWrite | qmodem/application/qfirehose/src/usb_linux.c:789-824 | The payload is framed behind those not yet forwarded |
| Tunnel.Download.Forward | qmodem/application/qfirehose/src/usb2tcp.c:334-357 | Each frame becomes one transfer to the device, with the payload as written, of which the device takes any part unnoticed |
| Tunnel.RunUpload | qmodem/application/qfirehose/src/usb2tcp.c:299-333 | For every interleaving of sends, arrivals and reads of any sizes, the bytes read are a prefix of the payloads sent, and exactly those of the model while transfers complete |
| Tunnel.EverythingRead | qmodem/application/qfirehose/src/usb_linux.c:740-787 | Nothing is held back: after any interleaving, once all has arrived, as many reads as there are bytes on the way, of any sizes but zero, give the client everything that was sent |
| Tunnel.RunDownload | qmodem/application/qfirehose/src/usb2tcp.c:334-357 | For every interleaving, the transfers given to the device are the first payloads written, each as one transfer, as many as frames were forwarded, with any count taken of each |
| Tunnel.ReachedIff | qmodem/application/qfirehose/src/usb2tcp.c:355-355 | The device has all the bytes given to it if and only if it took every transfer whole |
| AtResponse.Response.Add | qmodem/application/quectel_CM_5G_M/src/atchannel.c:111-124 | A line is put in front of the linked list |
| AtResponse.Response.Reverse | qmodem/application/quectel_CM_5G_M/src/atchannel.c:722-737 | The list is turned round in place: the same nodes, their lines in reverse order |
| AtResponse.ReversedTwice | qmodem/application/quectel_CM_5G_M/src/atchannel.c:722-737 | Reversing is its own inverse |
| AtChannel.StrStartsWith | qmodem/application/quectel_CM_5G_M/src/atchannel.c:99-108 | True if and only if the prefix is a prefix of the line |
| AtChannel.FindPrefix | qmodem/application/quectel_CM_5G_M/src/atchannel.c:132-211 | True if and only if some entry of the table is a prefix of the line |
| AtChannel.Channel.ProcessLine | qmodem/application/quectel_CM_5G_M/src/atchannel.c:229-295 | The state after a line is the specified one in each of the branches, which the seven rows on single lines below give by their text |
| AtChannel.Channel.IsIntermediate | qmodem/application/quectel_CM_5G_M/src/atchannel.c:255-290 | The switch over the command type accepts a line if and only if it matches and is the first, or the command takes many |
| AtChannel.Channel.ReaderTurn | qmodem/application/quectel_CM_5G_M/src/atchannel.c:450-484 | One line in the reader loop, with two-line unsolicited messages paired |
| AtChannel.Channel.ReaderEnd | qmodem/application/quectel_CM_5G_M/src/atchannel.c:432-447 | The end of the stream closes the channel when a callback is set |
| AtChannel.Channel.IssueCommand | qmodem/application/quectel_CM_5G_M/src/atchannel.c:743-772 | A command becomes pending with an empty response, or nothing but left-over raw data changes |
| AtChannel.Channel.Complete | qmodem/application/quectel_CM_5G_M/src/atchannel.c:774-798 | The response handed out lists the intermediate lines in order of arrival and the final response |
| AtChannel.Channel.GiveUp | qmodem/application/quectel_CM_5G_M/src/atchannel.c:627-636 | A timeout discards the pending command |
| AtChannel.AcceptedSnoc | qmodem/application/quectel_CM_5G_M/src/atchannel.c:255-290 | One more line offered: taken if it matches and is the first or many are taken |
| AtChannel.LinesConserved | qmodem/application/quectel_CM_5G_M/src/atchannel.c:229-295 | In every interleaving each line that arrives is filed once, in order; the handler saw exactly the unsolicited ones, save a message header without its second line; every write is owed to one line |
| AtChannel.LinesCounted | qmodem/application/quectel_CM_5G_M/src/atchannel.c:229-295 | Each line is filed exactly once: lines arrived = lines handled + header held + writes + lines filed as intermediate or final responses of all commands |
| AtChannel.NothingLostIff | qmodem/application/quectel_CM_5G_M/src/atchannel.c:213-219 | The lines that responses show make up for all the others, so that none is lost, if and only if no command got a second final response before its issuer woke, and a command that timed out or whose response was not wanted got no line |
| AtChannel.ResponsesRight | qmodem/application/quectel_CM_5G_M/src/atchannel.c:743-798 | In every interleaving a response handed out has the lines its command accepts among those offered, in order, at most one unless it takes many, each beginning with a digit or the prefix as its kind demands; the final response is the last one; the flag is true exactly when that begins with OK, CONNECT or the end of an update without error, and otherwise it begins with one of the seven error texts; no error means there was one |
| AtChannel.FinalSaid | qmodem/application/quectel_CM_5G_M/src/atchannel.c:127-175 | In every interleaving a line kept as a final response begins with one of the three success texts or the seven error texts |
| AtChannel.FinalTaken | qmodem/application/quectel_CM_5G_M/src/atchannel.c:243-252 | With a command pending, and save for a CONNECT that raw data wait for, a line that begins with one of those ten texts becomes its final response, with the flag by its text |
| AtChannel.AnnouncementHeld | qmodem/application/quectel_CM_5G_M/src/atchannel.c:194-211 | A line that begins with +CMT:, +CDS:, +CBM: or +CMTI: is held for its second line |
| AtChannel.SecondLinePaired | qmodem/application/quectel_CM_5G_M/src/atchannel.c:463-480 | The next line, whatever it says, goes to the handler together with it |
| AtChannel.UnsolicitedHandled | qmodem/application/quectel_CM_5G_M/src/atchannel.c:233-235 | Without a command every other line goes to the handler |
| AtChannel.ConnectAnswered | qmodem/application/quectel_CM_5G_M/src/atchannel.c:236-239 | CONNECT is answered with the raw data that wait, once, and is no response |
| AtChannel.PromptAnswered | qmodem/application/quectel_CM_5G_M/src/atchannel.c:253-257 | A prompt is answered with the PDU that waits, once |
| AtChannel.OtherLine | qmodem/application/quectel_CM_5G_M/src/atchannel.c:258-290 | Any other line is kept if the command takes it, by digit or prefix and the lines it has, and goes to the handler otherwise |
| AtChannel.Returns | qmodem/application/quectel_CM_5G_M/src/atchannel.c:774-798 | The issuer gets away exactly when there is a final response or the channel is closed, with the error that says which and the response if it is wanted; left-over raw data stays |
| AtChannel.ClosedIff | qmodem/application/quectel_CM_5G_M/src/atchannel.c:432-447 | In every interleaving the channel is closed if and only if it was closed by a call, or by the first end of the stream with the callback set; it never opens again |
| AtChannel.WritesOwnIff | qmodem/application/quectel_CM_5G_M/src/atchannel.c:235-255 | Prompts are answered with the pending command's PDU; CONNECT with the pending command's data if and only if it brought data |
| AtChannel.StaleRawData | qmodem/application/quectel_CM_5G_M/src/atchannel.c:627-636 | Data of a raw command that timed out is sent under the next command, whose CONNECT is swallowed |
| AtLines.Reader.FindNextEol | qmodem/application/quectel_CM_5G_M/src/atchannel.c:304-315 | The end of the next line, with the special case of the bare prompt |
| AtLines.Reader.SkipNewlines | qmodem/application/quectel_CM_5G_M/src/atchannel.c:349-350 | Leading newlines are passed over |
| AtLines.Reader.Compact | qmodem/application/quectel_CM_5G_M/src/atchannel.c:354-363 | A partial line moves to the start of the buffer unchanged |
| AtLines.Reader.Append | qmodem/application/quectel_CM_5G_M/src/atchannel.c:401-405 | A read extends the pending text |
| AtLines.Reader.ReadLine | qmodem/application/quectel_CM_5G_M/src/atchannel.c:328-429 | One call returns the line, the rest and the reads used as specified, NULL at the end of the stream, and whether it was a bare prompt, after which the cursor is on what the buffer held one past its end |
| AtLines.LinesArePieces | qmodem/application/quectel_CM_5G_M/src/atchannel.c:328-429 | Without a prompt successive calls give exactly the non-empty pieces ended by CR or LF |
| AtLines.PieceCut | qmodem/application/quectel_CM_5G_M/src/atchannel.c:328-429 | A text without CR and LF with one of them behind it is one line, or none if it is empty, and what follows is read on its own |
| AtLines.NoPieceYet | qmodem/application/quectel_CM_5G_M/src/atchannel.c:328-429 | Text without CR and LF is no line yet |
| AtLines.PromptIff | qmodem/application/quectel_CM_5G_M/src/atchannel.c:304-315 | A prompt comes out if and only if after some read the text behind the last newline is just the prompt |
| AtLines.ReadBoundariesDoNotMatter | qmodem/application/quectel_CM_5G_M/src/atchannel.c:328-429 | So the lines depend on the stream only, not on how reads cut it |
| AtLines.ReadAll | qmodem/application/quectel_CM_5G_M/src/atchannel.c:450-466 | The calls of the reader loop on the buffer give those lines, for every stream of reads that never fills the buffer |
| AtLines.ReadRun | qmodem/application/quectel_CM_5G_M/src/atchannel.c:450-466 | The calls of the reader loop up to NULL or a prompt give the specified lines, from any buffer and any stream of reads |
| AtLines.ReadPastPrompt | qmodem/application/quectel_CM_5G_M/src/atchannel.c:328-429 | After any prompt, wherever it stands, the calls that follow give the lines of the text left one past it in the buffer and of the rest of the stream |
| AtLines.PromptHarmlessIff | qmodem/application/quectel_CM_5G_M/src/atchannel.c:421-425 | What follows a prompt is right, for every stream without a further prompt, if and only if the text the buffer held there is nothing but newlines |
| AtTok.Tokenizer.Start | qmodem/application/quectel_CM_5G_M/src/at_tok.c:30-48 | The cursor moves behind the first colon, or becomes NULL |
| AtTok.Tokenizer.SkipWhiteSpace | qmodem/application/quectel_CM_5G_M/src/at_tok.c:50-57 | Leading blanks are passed over |
| AtTok.Tokenizer.SkipNextComma | qmodem/application/quectel_CM_5G_M/src/at_tok.c:59-70 | The cursor moves behind the next comma, or to the end |
| AtTok.Tokenizer.Next | qmodem/application/quectel_CM_5G_M/src/at_tok.c:72-89 | One token is cut out in place, quoted or not |
| AtTok.Tokenizer.All | qmodem/application/quectel_CM_5G_M/src/at_tok.c:175-190 | Asking for tokens while there are more gives the specified list and ends |
| AtTok.TokensOfJoin | qmodem/application/quectel_CM_5G_M/src/at_tok.c:72-89 | The tokens of a joined list are the list, but an empty unquoted last token is not seen |
| AtTok.InvertsJoinIff | qmodem/application/quectel_CM_5G_M/src/at_tok.c:72-190 | Tokenizing inverts joining if and only if the last token is quoted or not empty |
| AtTok.BlanksSkipped | qmodem/application/quectel_CM_5G_M/src/at_tok.c:50-57 | Blanks in front of a token make no difference |
| AtTok.JunkSkipped | qmodem/application/quectel_CM_5G_M/src/at_tok.c:59-89 | Nor does anything between a closing quote and the next comma |
| AtTok.ParseResponse | qmodem/application/quectel_CM_5G_M/src/at_tok.c:30-190 | The same for a whole response line with its prefix, on the buffer |
| QmiTransport.NthIdValue | qmodem/application/quectel_CM_5G_M/src/QMIThread.c:96-101 | The n-th transaction id in closed form |
| QmiTransport.SameIdIff | qmodem/application/quectel_CM_5G_M/src/QMIThread.c:96-101 | Ids are never 0, and two requests share one if and only if they are a whole number of rounds apart |
| QmiTransport.Transport.NextTransaction | qmodem/application/quectel_CM_5G_M/src/QmiWwanCM.c:28-33 | The counters step through their rings |
| QmiTransport.Transport.Send | qmodem/application/quectel_CM_5G_M/src/QmiWwanCM.c:125-162 | The header in the buffer gets the client id of its own service, service 0x11 becomes 0x01 after that, a control request keeps client 0, and no client id is an error |
| QmiTransport.Transport.Start | qmodem/application/quectel_CM_5G_M/src/QMIThread.c:607-624 | A call up to its wait is one step of the shared state and keeps the invariant; what that step sends is in RequestAddressed |
| QmiTransport.Transport.Finish | qmodem/application/quectel_CM_5G_M/src/QMIThread.c:625-644 | The rest of the call: an answer handed out matches the request of this call |
| QmiTransport.Transport.Recv | qmodem/application/quectel_CM_5G_M/src/QMIThread.c:646-665 | A message or a shutdown is one step of the shared state and keeps the invariant |
| QmiTransport.RunKeeps | qmodem/application/quectel_CM_5G_M/src/QMIThread.c:607-665 | The invariant holds after every interleaving of calls, messages, timeouts, spurious wakes, shutdowns and client id changes |
| QmiTransport.RequestAddressed | qmodem/application/quectel_CM_5G_M/src/QmiWwanCM.c:125-162 | After any interleaving a request carries the client id its own service was given last, under type 0x01 if the service is 0x11, or client 0 for control; its caller waits if and only if the message was written and there is a client |
| QmiTransport.NoMemoryNoRequest | qmodem/application/quectel_CM_5G_M/src/QMIThread.c:607-611 | A call without memory makes no request, leaves the one before in place and does not wait |
| QmiTransport.AnswersMatch | qmodem/application/quectel_CM_5G_M/src/QMIThread.c:589-665 | In every interleaving each answer handed out has the type, client and id of its caller's request as sent, and no call is answered twice |
| QmiTransport.FreedOnce | qmodem/application/quectel_CM_5G_M/src/QMIThread.c:646-665 | In every interleaving no request buffer is freed twice |
| QmiTransport.ReplyTakenIff | qmodem/application/quectel_CM_5G_M/src/QMIThread.c:589-605 | The reply to an earlier call is taken for the current one if and only if both address the same client of the same service and lie whole rounds of ids apart |
| QmiTransport.LateReplyIgnored | qmodem/application/quectel_CM_5G_M/src/QMIThread.c:589-665 | A reply fewer than a round late (65535, or 255 for control) is never taken |
| QmiTransport.IndicationIgnored | qmodem/application/quectel_CM_5G_M/src/QMIThread.c:589-665 | A message with id 0 is never taken |
| QmiTransport.AnswerDelivered | qmodem/application/quectel_CM_5G_M/src/QMIThread.c:607-665 | The first matching message reaches the waiting caller whatever arrives around it, even a shutdown after it |
| QmiTransport.OneRoundLateIsTaken | qmodem/application/quectel_CM_5G_M/src/QmiWwanCM.c:28-33 | After 255 further control requests a stale reply is taken |
| QmiTlv.Builder.PutString | qmodem/application/quectel_CM_5G_M/src/QMIThread.c:214-221 | A string TLV is appended; its NUL lands behind it for the next TLV to overwrite |
| QmiTlv.Builder.CopyString | qmodem/application/quectel_CM_5G_M/src/QMIThread.c:56-60 | The string and its NUL are copied and nothing else is touched |
| QmiTlv.Builder.StartNwInterface | qmodem/application/quectel_CM_5G_M/src/QMIThread.c:181-271 | The buffer holds the encoding of the intended TLV list, for every profile that fits; StartLookup says what each type holds |
| QmiTlv.Builder.ModifyProfileSettings | qmodem/application/quectel_CM_5G_M/src/QMIThread.c:510-567 | The same for the profile request, one byte being kept for the NUL of a last string |
| QmiTlv.Builder.Compose | qmodem/application/quectel_CM_5G_M/src/QMIThread.c:103-133 | The message has consistent nested lengths: whole, QMUX part and TLVs |
| QmiTlv.GetTlv | qmodem/application/quectel_CM_5G_M/src/QMIThread.c:75-94 | Lookup by index gives that TLV, lookup by type the first of the type, NULL exactly when there is none |
| QmiTlv.LookupMeans | qmodem/application/quectel_CM_5G_M/src/QMIThread.c:75-94 | The k-th TLV is asked for as 0x1000 + k, any smaller number is a type, of which the first is found; nothing when there is none |
| QmiTlv.MessageHolds | qmodem/application/quectel_CM_5G_M/src/QMIThread.c:103-133 | The length fields of a composed message are right for lookup |
| QmiTlv.Enumerate | qmodem/application/quectel_CM_5G_M/src/QMIThread.c:75-94 | Asking by index until NULL gives the whole list in order |
| QmiTlv.StartRoundTrip | qmodem/application/quectel_CM_5G_M/src/QMIThread.c:75-271 | Built and read back, a start-network request gives exactly its TLVs and values |
| QmiTlv.ModifyRoundTrip | qmodem/application/quectel_CM_5G_M/src/QMIThread.c:75-567 | Built and read back, a modify-profile request gives exactly its TLVs and values |
| QmiTlv.StartLookup | qmodem/application/quectel_CM_5G_M/src/QMIThread.c:75-271 | On the composed message, by literal type: looking up 0x17 gives the user, 0x18 the password, 0x14 the APN unless cdma, 0x16 the authentication exactly when both credentials are there, 0x19 the family, 0x31 the index exactly when it is not 0 and not cdma, 0x30 1 or 2, anything else nothing; a cdma profile without credentials has those of the operator |
| QmiTlv.ModifyLookup | qmodem/application/quectel_CM_5G_M/src/QMIThread.c:75-567 | The same for the profile request: 0x01 the index, 0x11 the type of addresses, 0x14 the APN, 0x1B the user, 0x1C the password, 0x1D the authentication exactly when both credentials are there |
| QmiTlv.MessageBytes | qmodem/application/quectel_CM_5G_M/src/QMIThread.c:103-133 | The thirteen bytes in front of the TLVs, one by one, with both lengths |
| QList.Node.constructor | qmodem/application/quectel_CM_5G_M/src/qlist.h:19-23 | A new node is an empty ring |
| QList.Init | qmodem/application/quectel_CM_5G_M/src/qlist.h:19-23 | So is a node that is initialised again |
| QList.Empty | qmodem/application/quectel_CM_5G_M/src/qlist.h:15-15 | Empty if and only if the sequence is |
| QList.AddTail | qmodem/application/quectel_CM_5G_M/src/qlist.h:25-31 | The item is appended; next and prev stay inverse around one ring |
| QList.Remove | qmodem/application/quectel_CM_5G_M/src/qlist.h:33-37 | Exactly that item goes, the others keep their order, and its own pointers stay |
| QList.Use | qmodem/application/quectel_CM_5G_M/src/qlist.h:12-37 | After any sequence of additions and removals, going through the list visits exactly the nodes still in it, in the order they were added |
| QList.ForEach | qmodem/application/quectel_CM_5G_M/src/qlist.h:12-13 | Visits each item once, in order, and ends |

## Left out

- SparseTheorem.PreservesIff: images that wrap at 2^32 in blocks of fewer than eight sectors are not decided one by one, because equal runs can change places (LuckyWrap); SafeIff decides them by their headers. Sectors of fewer than four bytes are not decided for images with fill chunks. Zero-block chunks, CRC32 chunks and unknown chunk types are not well formed here. More than 100 runs overrun the tables of the source, and 65536 chunks or a file of 2^32 bytes its counters; such images do not fit.
- SparseHeaders.SafeIff: sectors of fewer than four bytes, and images that do not fit the tables, are excluded.
- SparseWrap.RawPreservesIff: the same images that wrap, and those that do not fit, are left out here.
- SparseMeaning.FillNotPreserved: blocks of one sector are in SparseTheorem.
- SparseProgram.Programmer.ProcessProgram: every answer of the device succeeds, the image fits the tables, and the payload limit is a multiple of the sector size; failing answers are in FirehoseRun. Totals of don't-care blocks are kept unreduced; only their remainder modulo 2^32 reaches a start sector.
- SparseProgram.Programmer.SendProgram: the payload limit is a multiple of the sector size.
- SparseProgram.Programmer.SendRawmodeImage: the payload limit is a multiple of the sector size and every write takes all its bytes; otherwise the source pads, or reads a whole chunk, past the end of its payload buffer, and nothing can be said of what follows.
- SparseProgram.Programmer.SendChunk: the same.
- RawImage.ZerosInside: that the padding past the limit also overruns the payload buffer of the source is stated as the length of the piece; what the overrun destroys is not modelled.
- FirehoseRun.ProgramCount: two is the number of times a line that wraps is selected; the source frees the file name after the first time, so what the second does is not defined.
- FirehoseRun.WrapsTwice: the same.
- FirehoseRun.AllSentOnceIff: lines that are not scanned or that wrap are in SentOnceIff, since a command tried twice and lost once did go out once.
- FirehoseRun.SectorZeroProgrammedLast: programs whose moved start sector wraps to zero are excluded, since those are programmed again in the last pass; ExactlyOnceIff gives the condition.
- FirehoseRun.Flasher.Run: the contents streamed for a program are in SparseProgram and RawImage, not in the log of the run.
- EraseAll.FindValue: a key within two characters of the end of the line, where the source reads past the text, is not modelled.
- EraseAll.Command.SetValue: the new text has to fit the 512-byte buffer, which the source does not check.
- EraseAll.Command.Widen: lines whose number attributes run into each other are excluded, and the two restrictions above hold here as well.
- EraseAll.WidenedReads: lines whose number attributes run into each other are excluded.
- EraseAll.EraseAllCoversIff: the same lines are excluded, and text that outgrows the 512-byte buffer.
- EraseAll.AtoiOfDigits: atoi on numbers from 2^31 up is taken as on a 64-bit long.
- Md5.Context.End: the branch for a full buffer on entry is unreachable and not modelled.
- Crc16.Crc16Calc: whole bytes only; the loop over a last partial byte is never reached.
- StreamLink.Link.ReceivePacket: reads that fail or time out are the end of the list of reads; the device answers each request with one frame, so reads that run on into a second frame are excluded.
- Sahara.Host.Rx: packets are taken as decoded fields, so the two ways of reading their bytes and the bytes left from earlier packets are arbitrary field values.
- Sahara.Host.ImageTransfer: seeking in the file succeeds for every 32-bit offset, as it does where long has 64 bits.
- Tunnel.Upload.NextFrame: what the reader does once it is out of step is not modelled, nor is the device information sent on connecting.
- Tunnel.Download.Forward: a frame with a wrong tag cannot occur on this stream; frames are at most the 16 KiB buffer, which the source does not check.
- AtChannel.Channel.ProcessLine: the proxy is off, the unsolicited handler is set, and the writes it causes succeed.
- AtLines.Reader.ReadLine: a read that fills the buffer, after which the source writes a NUL behind it or starts over, is excluded.
- AtTok.Tokenizer.Next: tokens are returned as text, not as pointers into the line.
- QmiTransport.Transport.Start: composing and sending are one step; the time limit of the wait is any moment.
- QmiTlv.GetTlv: messages whose TLV lengths do not add up, where the source reads past the message, are excluded.
- Notifications of QMI indications to the main thread: they change nothing modelled here.
- The other QMI builders and parsers, runtime settings and profile lists: more members of the same kind.
- The payload of handle_write in the streaming download protocol: the data pointer is not advanced, so no transfer of the file can be stated.
- Opening and configuring USB, PCIe, tty and sockets, polling, zip extraction, file discovery, command lines, log output and progress messages: input and output only.
- Writing of AT commands byte by byte, MBIM, qrtr and the proxies: thin or of the same shape as what is modelled.
- owt-ctrl, fancontrol, the Lua and shell parts and the translation scripts of the repository.
