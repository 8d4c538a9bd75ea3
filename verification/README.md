# Verification model of the detector shell

This project models, in Dafny, the code that moves detector data and register images between hero_shell, its
converter programs and its Python scripts, and proves what that code promises.

- **Register images.** `scripts/vareg.py` packs 60 fields per ASIC into 128 bytes, joins four ASICs, appends a
  CRC-32 and writes base64. `set_vareg` decodes the text with its own base64 decoder and checks it with its own
  CRC, which works most significant bit first on bit-reversed bytes, four bytes at a time through four tables.
  The model proves that this CRC is the reflected CRC-32 of section 8 of RFC 1952, that the decoder inverts the
  encoding of section 4 of RFC 4648, and that the two sides fit together.
- **Event stream.** `FrameAnalyzer` walks a bit stream whose block lengths depend on the data. The specification
  is a function of the memory, where memory is the buffer and arbitrary bytes behind it; an encoder written from
  the format is inverted by it.
- **Raw files.** `RawDataFile` resynchronises on a file that may grow between calls.
- **Calibration.** `calc_pedestal` takes medians of ADC minus common mode noise, `set_delreg.py` turns them into
  trims. Medians of integers are half-integers, so everything is computed on doubled integers. The last module
  follows the data from the acquired frames to the new register file.
- **Background acquisition.** The interactive shell, the acquisition worker, its stream reader and the SIGINT
  handlers are a transition system with one step for every access to shared state. A run is any sequence of
  steps with any answers of the user, the scripts, the files and the server; the results hold for every run.

Methods follow the loops and field updates of the source and are proved against specification functions; the
lemmas state what those functions are worth. Formats and constants are stated once more without these functions, on
bytes, bit positions and names: `EventLayout`, `RawDataLayout`, `Base64Texts`, `VaregLayout`, `ReadoutCommands`.

## Model notes

- The atomics of the source are relaxed. The steps of the model are sequentially consistent.
- The formula `((bit_offset + 63) / 32) * 4` rounds up to a word, as its comment says, and then skips exactly one
  word more; the model follows the formula (`include/raw2root/frame_analyzer.hh:189`,
  `EventDecoding.AlignedSkipsOneWord`).
- `head_ * 8` is computed in 32 bits. For buffers of 2^29 bytes and more a call can return true and move backwards;
  below that size every true return moves forward (`FrameAnalyzer.ForwardBelowWrap`).
- The documentation says that configuration commands are rejected during a readout; the code lets `set` through
  (`src/hero_shell.cc:42-44`). The model follows the code.
- The upload check does not see every damage of four consecutive bytes. Across the end of the data, from byte 510
  on, the difference 61 D8 F4 EE leaves the checksum valid; it is the only one
  (`VaregImage.FourByteDamage`, `VaregImage.OneDamageSlipsThrough`).
- A stream that the server closes after the worker's last look at its reader is not noticed, and the job can
  succeed (`ReadoutExamples.EarlyCloseCanPassUnnoticed`); `ReadoutResults.FailuresAreSteps` says exactly which
  steps record a failure.
- Success of a job does not exclude a recorded stop: the flag is read again for the report, after the final
  check (`ReadoutResults.ReportIsExact`, with a run in `ReadoutExamples.SuccessBesideStop`).
- `readout status` takes the record before it loads the active flag, so it is not an atomic view; nothing is
  claimed about what it prints.
- An old-format file opened with fewer than four bytes in it is read as a new-format file
  (`RawDataFile.ThreeBytesAreTooFew`); `RawDataFile.FormatIsSettled` gives the exact condition.
- Flags of the past reach a new job in two ways. A SIGINT handler that found one job active may store its request
  only after the next job has cleared the stop flag (`ReadoutExamples.OldHandlerStopsNewJob`). And an interrupt
  before the start, whose handler found no job active, leaves the interrupt flag set until the shell clears it;
  the new job can see it first (`ReadoutExamples.OldInterruptEndsNewJob`). `ReadoutStarts.FlagsReachNewJobs` shows
  that there is no third way. A job that is ended by the interrupt flag is reported as failed, not as stopped;
  `ReadoutResults.FailureWithoutReason` says exactly when.
- A channel more than 63.5 below the highest one cannot be trimmed level; `DelReg.TrimReaches` gives the exact
  condition.

## Model

| member | source | states |
|---|---|---|
| Crc.Rbit32 | include/crc.hh:9-17 | the loop moves bit i to bit 31 - i, for every word |
| Crc.ReversedBit | include/crc.hh:9-17 | what reversal means, bit by bit |
| Crc.Rbit8 | include/crc.hh:19 | bit i of the result is bit 7 - i of the byte |
| Crc.StepIsLinear | include/crc.hh:26-33 | one division step distributes over exclusive or, for every polynomial |
| Crc.ReversedStep | include/crc.hh:9-40 | bit reversal turns the most-significant-first step into the reflected step of RFC 1952 |
| Crc.Crc32Tablex4 | include/crc.hh:21-37 | row i, entry j is byte j taken through 8 * (i + 1) division steps |
| Crc.LookupIsSteps | include/crc.hh:52-58 | exclusive or of the four looked-up entries is exactly 32 division steps on the word |
| Crc.ReversedWordUpdate | include/crc.hh:49-58 | one four-byte update is, reversed, the byte-wise reflected update with the four bytes in order |
| Crc.UpdateWord | include/crc.hh:48-59 | one turn of the loop, on the tables, advances the reflected register by four bytes |
| Crc.Crc32Sliced | include/crc.hh:42-63 | equals the bit-serial reflected CRC-32 for every length divisible by 4 and is an error for every other |
| CrcDetection.RfcUpdateIsUpdateByte | include/crc.hh:39-62 | the bit-serial reference equals the table form printed in section 8 of RFC 1952 |
| CrcDetection.StepIsInvertible | include/crc.hh:26-33 | a division step by an odd polynomial loses nothing |
| CrcDetection.UpdateIsInjective | include/crc.hh:42-62 | different registers stay different whatever bytes follow |
| CrcDetection.BurstIsDetected | include/crc.hh:42-62 | messages that differ only inside four consecutive message bytes, aligned or not, have different checksums |
| CrcErrors.ChecksumsDifferByDifference | include/crc.hh:42-62 | the checksums of two messages of one length differ by the register their difference leaves when started clear |
| CrcErrors.CheckValue | include/crc.hh:42-63 | the checksum of the digits 1 to 9 is CBF43926 |
| Base64.Base64Decode | include/base64.hh:29-57 | with a wrapping, never masked accumulator it computes the decoding by bits: the bits of the symbols cut into whole bytes, or an error |
| Base64.SpellingIsUnique | include/base64.hh:40-53 | the symbols determine the bytes, and their number is floor(6n/8) |
| Base64.EncodingHasNoSpaces | include/base64.hh:29-57 | the encoding itself is one of the texts DecodingInvertsEncoding speaks of |
| Base64.DecodingInvertsEncoding | include/base64.hh:29-57 | every text that is the RFC 4648 encoding, with white space inserted anywhere or nowhere, decodes to the encoded bytes |
| Base64Texts.RefusedTexts | include/base64.hh:36-47 | a text is refused if and only if a byte other than A-Z, a-z, 0-9, +, /, =, line feed, carriage return, tab and space stands before the first = |
| Base64Texts.SpacesAreSkipped | include/base64.hh:37-39 | a line feed, carriage return, tab or space anywhere makes no difference |
| Base64Texts.PaddingEnds | include/base64.hh:45-47 | nothing behind the first = makes a difference |
| Base64Texts.EncodingIsTheStandard | scripts/vareg.py:346-350 | the encoding is that of section 4 of RFC 4648, character by character in plain arithmetic |
| Base64Texts.EncodedTextsDecode | include/base64.hh:29-57 | a text that is the standard's encoding once the four kinds of white space are removed decodes to the data |
| Vareg.LayoutWidths | scripts/vareg.py:167-228 | the 60 fields take 936 bits, 512 of them before Del_reg |
| Vareg.ImageRoundTrip | scripts/vareg.py:230-316 | reading a packed image gives exactly the values packed, and no others |
| Vareg.RepackingReproduces | scripts/vareg.py:263-316 | packing what was read reproduces the 128 bytes if and only if bytes 117 to 127 are zero |
| Vareg.ImageIsUnique | scripts/vareg.py:263-277 | values in range have one image |
| Vareg.FieldPosition | scripts/vareg.py:268-275 | field k takes the bits right behind those of the fields before it |
| Vareg.UnchangedElsewhere | scripts/vareg.py:268-275 | changing one field changes bits of that field only |
| VaregLayout.BiasFields | scripts/vareg.py:169-179 | fields 0 to 10: name, width and first bit |
| VaregLayout.WideBiasFields | scripts/vareg.py:180-182 | ck_bi, Iramp and ifp have four bits each from bit 33 on |
| VaregLayout.ThresholdField | scripts/vareg.py:183 | vth has five bits from bit 45 on |
| VaregLayout.ModeFields | scripts/vareg.py:184-186 | three named bits from bit 50 on |
| VaregLayout.ChannelFields | scripts/vareg.py:187-192 | the arrays Test_Enable, Trim_Dac, CH_Disable and Dis_chan_CM and the fields between them: width, size and first bit |
| VaregLayout.DelRegField | scripts/vareg.py:193 | Del_reg has 64 elements of six bits from bit 512 on |
| VaregLayout.DelRegDummyField | scripts/vareg.py:194 | Del_reg_Dummy has six bits from bit 896 on |
| VaregLayout.FirstSwitchFields | scripts/vareg.py:195-206 | the first twelve single bits behind Del_reg_Dummy, by name, from bit 902 on |
| VaregLayout.SecondSwitchFields | scripts/vareg.py:207-218 | the next twelve, from bit 914 on |
| VaregLayout.ThirdSwitchFields | scripts/vareg.py:219-228 | the last ten, from bit 926 on |
| VaregLayout.ScalarIsRead | scripts/vareg.py:287-296 | a field holds the number that stands in its bits, most significant bit first |
| VaregLayout.ElementIsRead | scripts/vareg.py:298-316 | the number at place j of an array is its element size - 1 - j |
| VaregLayout.BlockNumber | scripts/vareg.py:326-330 | the bits of ASIC i start at bit 1024 * (3 - i) of the 512 bytes |
| VaregRegister.FlattenField | scripts/vareg.py:233-249 | a field is flattened most significant element first: arrays from the last element down |
| VaregRegister.PackEntries | scripts/vareg.py:263-277 | the byte and mask loops put bit p of the stream into bit 7 - p % 8 of byte p / 8, and zeros behind |
| VaregRegister.ReadNumber | scripts/vareg.py:287-294 | the bit loop reads the number whose bits stand there, most significant first |
| VaregRegister.UnpackFields | scripts/vareg.py:279-316 | reads, in order and in range, exactly the fields the data holds completely, with the bits of the data |
| VaregRegister.Register.SetElement | scripts/vareg.py:104-107 | stores an element in range; otherwise an index or value error and nothing changes |
| VaregRegister.Register.SetField | scripts/vareg.py:35-38 | stores a value in range; otherwise a value error and nothing changes |
| VaregRegister.Register.SetArray | scripts/vareg.py:155-161 | stores a list of the right length with elements in range; otherwise a value error and nothing changes |
| VaregRegister.Register.ToByteArray | scripts/vareg.py:263-277 | writes the image of the values |
| VaregRegister.Register.FromByteArray | scripts/vareg.py:279-316 | the object holds the values the data decodes to; an index error, exactly for data shorter than 936 bits, leaves the later fields as they were |
| VaregImage.SetVareg | src/commands.cc:1251-1286 | base64, length and CRC checks and the padded payload, in the order and with the outcomes of the source |
| VaregImage.CheckIsLiteral | src/commands.cc:1260-1286 | accepted are 516 bytes of which the last four are the checksum of the others, most significant byte first; uploaded are 4096 bytes, the 512 and zeros |
| VaregImage.ProtectedIsLiteral | scripts/vareg.py:346-350 | the four bytes behind the data are its checksum, most significant byte first |
| VaregImage.WrittenImageIsUploaded | src/commands.cc:1251-1286 | every image written with its checksum, in any layout of white space, is uploaded unchanged and zero-filled to 4096 bytes |
| VaregImage.WrittenTextUploads | scripts/vareg.py:346-350 | so is the text exactly as it is written |
| VaregImage.DamageIsAcceptedIff | src/commands.cc:1266-1277 | an accepted image with any damage is accepted if and only if the difference is itself a message with its checksum for a clear register |
| VaregImage.FourByteDamage | src/commands.cc:1266-1277 | damage inside four consecutive bytes, at every offset in data and checksum, is rejected, except for exactly one difference at byte 510 |
| VaregImage.OneDamageSlipsThrough | src/commands.cc:1266-1277 | that difference turns every written image into another one that is uploaded |
| VaregImage.Image4RoundTrip | scripts/vareg.py:326-338 | four ASICs, in reversed order, are read back exactly |
| VaregImage.Repacking4Reproduces | scripts/vareg.py:326-338 | packing what was read reproduces the 512 bytes if and only if all four paddings are zero |
| VaregImage.Vareg4Asic.ToBase64 | scripts/vareg.py:346-350 | for every register set in range, the text is the encoding of the four images and their checksum, and set_vareg uploads exactly these images and zeros |
| VaregImage.Vareg4Asic.FromRaw | scripts/vareg.py:354-361 | loads the values of the image, or reports a wrong length or checksum and changes nothing |
| FrameAnalyzer.FrameAnalyzer.UnpackNextEvent | include/raw2root/frame_analyzer.hh:130-216 | outcome, cursor and event of a call are those of the specification with the 32-bit wrap of `head_ * 8`, for every buffer content up to 2^32 - 32 bytes; below 2^29 bytes they are those EventLayout.CallsReadTheirBytes tells from the bytes |
| FrameAnalyzer.SmallBuffersDoNotWrap | include/raw2root/frame_analyzer.hh:151-153 | below 2^29 bytes the 32-bit specification is the unbounded one |
| FrameAnalyzer.ForwardBelowWrap | include/raw2root/frame_analyzer.hh:130-216 | every true return moves the cursor forward, for every buffer of n bytes, if and only if n is below 2^29 |
| FrameAnalyzer.FrameAnalyzer.Initialize | include/raw2root/frame_analyzer.hh:121-128 | a null buffer is refused exactly when its size is positive; otherwise the cursor starts over |
| FrameAnalyzer.FrameAnalyzer.ReadAsic | include/raw2root/frame_analyzer.hh:153-188 | one block of 5 or 91 + 10 * count bits, read into the event |
| FrameAnalyzer.FrameAnalyzer.FindFooter | include/raw2root/frame_analyzer.hh:204-214 | stops behind the first footer at or after the cursor, or where none fits |
| EventLayout.CallsReadTheirBytes | include/raw2root/frame_analyzer.hh:130-216 | a call returns true if and only if 3C 3C 00 00, fixed fields, four blocks and a footer 00 00 77 77 stand at the cursor; every field of the event, is_pseudo_event included, is the number in its bytes or bits, and an event whose footer is out of place is blank |
| EventLayout.AsicIsBlock | include/raw2root/frame_analyzer.hh:153-188 | header bits, channel flags, reference, samples of the flagged channels in order and common mode noise of a block, by bit position |
| EventLayout.BlockIsUnique | include/raw2root/frame_analyzer.hh:153-188 | the bits leave no second reading of a block |
| EventDecoding.CallAdvances | include/raw2root/frame_analyzer.hh:130-216 | a true return moves at least 35 bytes, stays in the buffer, stops behind the first footer at or after the expected place, and is valid if and only if that is the expected place |
| EventDecoding.AlignedSkipsOneWord | include/raw2root/frame_analyzer.hh:189 | the alignment rounds up to a word and skips exactly one more |
| EventDecoding.ValidEventLength | include/raw2root/frame_analyzer.hh:144-200 | a valid event from a word boundary takes 28 + 4 * ((n + 63) / 32) bytes, 36 to 400 |
| EventDecoding.EventsAreBounded | include/raw2root/frame_analyzer.hh:130-216 | the event loop ends after at most one event for every 35 bytes |
| EventDecoding.CallsIgnoreBeyond | include/raw2root/frame_analyzer.hh:153-236 | returns, events and exceptions of any number of calls depend on no byte behind the buffer |
| EventEncoding.EveryEventIsEncodable | include/raw2root/frame_analyzer.hh:153-199 | the encoder covers every well-formed event with any bits in the places that are skipped; only the number of padding bits is fixed, 32 to 63 |
| EventEncoding.AsicDecodes | include/raw2root/frame_analyzer.hh:153-188 | an encoded block is read back for every header, channel mask and filler |
| EventEncoding.EventDecodes | include/raw2root/frame_analyzer.hh:130-200 | an encoded event is read back, valid, and the cursor stops right behind it |
| EventEncoding.FrameDecodes | include/raw2root/frame_analyzer.hh:130-216 | a frame of encoded events, any number and any contents, decodes to exactly these, in order |
| EventEncoding.DecodingRecovers | include/raw2root/frame_analyzer.hh:204-214 | behind a damaged event whose next footer ends at a word boundary, encoded events decode exactly, after one invalid event |
| RawDataFile.RawDataFile.constructor | include/raw2root/raw_data_file.hh:44-49 | the format is old if and only if there are four bytes and the first three are AB CD EF; the position is 0 |
| RawDataFile.RawDataFile.ReadData | include/raw2root/raw_data_file.hh:121-137 | all bytes asked for and the position moved, or nothing |
| RawDataFile.RawDataFile.GetNextFrame | include/raw2root/raw_data_file.hh:58-114 | result, frame buffer, position and misalignments of a call are those of the specification, also when it returns false |
| RawDataFile.GrowingFileIsRead | include/raw2root/raw_data_file.hh:58-163 | for any mix of appends and calls, the frames and misalignments are those of one pass over the final file, whenever its format was recognised at opening |
| RawDataFile.IncrementalIsOneShot | include/raw2root/raw_data_file.hh:58-163 | the same for a given format, whatever was there at the start |
| RawDataFile.FormatIsSettled | include/raw2root/raw_data_file.hh:44-49 | the format decided at opening is that of the final file if and only if four bytes were there or the file is not in the old format |
| RawDataFile.ThreeBytesAreTooFew | include/raw2root/raw_data_file.hh:44-49 | an old-format file opened three bytes long is taken for a new-format one |
| RawDataFile.BytesAreAccounted | include/raw2root/raw_data_file.hh:67-113 | bytes passed are 8376 per housekeeping record, 32780 per frame and 1 per misalignment |
| RawDataFile.FramesAreBounded | include/raw2root/raw_data_file.hh:67-113 | frames returned are at most the file size over 32780 |
| RawDataFile.RecordFileIsRead | include/raw2root/raw_data_file.hh:67-113 | a file of whole records, of either kind first, is recognised and yields every payload in order and no misalignment |
| RawDataFile.FrameFileIsRead | include/raw2root/raw_data_file.hh:44-61 | a file of whole frames is read back as these frames if and only if it does not start like an old-format file |
| RawDataFile.FormatBytes | include/raw2root/raw_data_file.hh:44-49 | old-format files are told by AB CD EF |
| RawDataLayout.FoundIsLiteral | include/raw2root/raw_data_file.hh:67-113 | what is found at a position, by the bytes of headers and footer and by the sizes 8376 and 32780 |
| RawDataLayout.FramesAreGenuine | include/raw2root/raw_data_file.hh:83-107 | every frame of a pass stands between a data header and a footer, in order and without overlap |
| RawDataLayout.JunkIsSkipped | include/raw2root/raw_data_file.hh:67-113 | bytes between records among which no header starts cost one misalignment each and no payload |
| RawDataLayout.NewFormatIsCut | include/raw2root/raw_data_file.hh:58-61 | any other file is cut into frames of 32768 bytes |
| Order.NthElement | src/calc_pedestal.cc:25-26 | the partition guarantee of the library's selection and nothing more |
| Order.PartitionSelects | src/calc_pedestal.cc:25-31 | a partitioned list has the sorted-order element at the pivot and the sorted prefix before it |
| Order.SortedOrderIsUnique | src/calc_pedestal.cc:20-32 | a list has one sorted order |
| Order.MedianIsBounded | src/calc_pedestal.cc:20-32 | the doubled median lies between twice the bounds of the samples |
| Order.SortedRank | src/calc_pedestal.cc:25-31 | at most r samples are below the one at place r of the sorted order, and more than r are not above it |
| Pedestal.Median | src/calc_pedestal.cc:20-32 | the sorted-order median for odd and even counts; an error for no sample |
| Pedestal.AddSamples | src/calc_pedestal.cc:59-66 | every flagged channel gets ADC minus common mode noise, no other channel changes |
| Pedestal.CollectFrame | src/calc_pedestal.cc:54-67 | the valid events of the frame, up to the number still wanted, are added |
| Pedestal.CalcPedestal | src/calc_pedestal.cc:45-79 | prints, for channel k % 64 of ASIC k / 64, the middle of ADC minus common mode noise over the events that flag it, or stops with exit code 1 at the first channel that no event flags or at an exception |
| Pedestal.MedianIsMiddle | src/calc_pedestal.cc:20-32 | the median of the samples is the middle level, or the mean of the two middle levels, of the events that flag the channel, and at least half of them lie on either side |
| Pedestal.ValidsAreInOrder | src/calc_pedestal.cc:54-57 | every valid event is kept, the n-th as the n-th |
| Pedestal.FirstValidEvents | src/calc_pedestal.cc:51-68 | the events used are the first 8192 valid ones of all frames; it aborts if and only if a frame ends in an exception before them |
| Pedestal.EventsDependOnData | src/calc_pedestal.cc:52-54 | the events of a frame depend neither on bytes behind it nor on the reused event object |
| Pedestal.WrittenEventsAreUsed | src/calc_pedestal.cc:51-68 | from frames of encoded events exactly the first 8192 encoded events are used |
| Pedestal.PedestalsAreBounded | src/calc_pedestal.cc:63 | every pedestal is a half-integer in -1023 to 1023 |
| DelReg.TrimReaches | scripts/set_delreg.py:31-37 | trims lie in 0 to 63, and a channel ends within 1/2 of the highest if and only if it started within 63.5 |
| DelReg.TrimsAlign | scripts/set_delreg.py:31-37 | any two channels within reach end within 1 of each other |
| DelReg.TrimsAreMonotone | scripts/set_delreg.py:35-37 | a lower channel never gets a smaller trim |
| DelReg.TrimsAreFixed | scripts/set_delreg.py:31-37 | running again on the predicted pedestals changes no trim |
| DelReg.RoundingIsToEven | scripts/set_delreg.py:37 | half-integers are rounded to the even neighbour |
| DelReg.SavedTrims | scripts/set_delreg.py:26-39 | the six bits of channel c of ASIC i in the saved image are half the doubled distance from its untrimmed pedestal, number 64 * i + c, to the highest of its ASIC, rounded and at most 63 |
| DelReg.CalibrateAsic | scripts/set_delreg.py:29-37 | the in-place loops leave Del_reg with the trims and every other field as it was |
| DelReg.SetDelReg | scripts/set_delreg.py:26-39 | calibrate and save: every error outcome, and a saved text that uploads the calibrated image, which has the new trims in its bits and with zero padding in differs from the loaded one in Del_reg bits only |
| DelReg.TrimPosition | scripts/vareg.py:193 | channel c takes the six bits from 512 + 6 * (63 - c) |
| DelReg.OnlyDelRegBitsChange | scripts/set_delreg.py:29-39 | outside bits 512 to 895 the image of an ASIC stays as it was |
| DelReg.CalibrationKeepsFrame | scripts/set_delreg.py:26-39 | with zero padding in, the saved image differs from the input only in Del_reg bits, has a valid checksum and uploads, in any layout of white space |
| ReadoutStatus.FirstMessagesAreKept | src/commands.cc:139-146 | the record keeps the first twenty messages in order and counts the others |
| ReadoutStatus.Record.SetOutputs | src/commands.cc:124-132 | addresses get a zero counter unless they have one |
| ReadoutStatus.Record.IncrementFrameCount | src/commands.cc:148-151 | one counter grows by one |
| ReadoutStatus.Record.FinishStatus | src/commands.cc:153-158 | the result is stored and nothing else changes |
| Acquisition.WorkerKeeps | src/commands.cc:1482-1788 | every worker step keeps the order of calls, the meaning of the result and the contents of the files |
| Acquisition.ReaderKeeps | src/commands.cc:1582-1680 | so does every reader step, whatever the server sends |
| Acquisition.WorkerKeepsRecord | src/commands.cc:1982-1986 | the record keeps naming the job's files, and has a result exactly when the worker is past storing it |
| Acquisition.ReaderKeepsRecord | src/commands.cc:1638-1643 | shared and local counters differ by at most the frame being counted |
| ReadoutSafety.RunKeeps | src/hero_shell.cc:529-705 | the invariant of the system holds after every run |
| ReadoutResults.OneWorker | src/commands.cc:1863-1867 | at most one worker lives, a joinable handle is never assigned to, and the process ends only after every worker |
| ReadoutResults.UnsafeCommandsRunAlone | src/hero_shell.cc:529-545 | a command other than nine named ones never overlaps an active job, at any script depth, and the depth is at most 10 |
| ReadoutResults.ConfigurationRunsAlone | src/hero_shell.cc:42-49 | none of the ten configuration commands runs while a job is active |
| ReadoutCommands.NineAlwaysRun | src/hero_shell.cc:529-545 | the nine named commands run whether or not a job is active |
| ReadoutCommands.OthersAreRefused | src/hero_shell.cc:529-545 | every other command but the acquisition commands, exit and quit fails while a job is active, and every command below depth 10 |
| ReadoutCommands.ExitQuits | src/hero_shell.cc:617-625 | exit and quit leave the shell, active or not |
| ReadoutCommands.StopIsChecked | src/commands.cc:1949-1957 | `readout stop` and `pedcalib_readout stop` come to the check of the active flag |
| ReadoutCommands.FailureUnwinds | src/hero_shell.cc:518-521 | a failing command ends all scripts around it, one step each, whatever the other threads do |
| ReadoutCommands.InterruptEndsScript | src/hero_shell.cc:490-494 | an interrupt seen before a script line ends the script and is forgotten |
| ReadoutCommands.WorkersAreStarted | src/commands.cc:1967-1986 | a worker is created only for the kind of job its command names, with valid addresses, and after a moment of this start at which no job was active and the stop flag was clear |
| ReadoutResults.ActiveMeansWorking | src/commands.cc:1967-1986 | the active flag is set exactly while a job is started or works; starting a job waits only for a finished one |
| ReadoutResults.ResultIsLeft | src/commands.cc:1983-1985 | a job that cleared the active flag has left its result until the next reset |
| ReadoutResults.CallsOfAJob | src/commands.cc:1556-1765 | an accepted start is followed by exactly one stop, one cancel and one join, in this order; then comes a calibration, on the job's own files, if and only if the job is a pedestal readout that succeeded so far |
| ReadoutResults.SuccessMeans | src/commands.cc:1784-1788 | success if and only if started, stop accepted, no failure recorded, no stop at the final check, and a good calibration if there is one |
| ReadoutVerdicts.SuccessWasChecked | src/commands.cc:1764-1788 | a job that succeeds, or calibrates, saw the stop flag clear and then the interrupt flag clear after the join |
| ReadoutVerdicts.BadAnswersFail | src/commands.cc:1628-1678 | a job does not succeed if a frame or housekeeping frame was not written or its stream ended with an error |
| ReadoutResults.FailuresAreSteps | src/commands.cc:1629-1678 | a failure is recorded if and only if a frame or housekeeping write failed, the stream ended with an error, or the worker in its loop found its reader done; ReadoutPolls.EveryTurnTests says that it looks |
| ReadoutPolls.DoneReaderIsNoticed | src/commands.cc:1713-1728 | a worker that begins a turn of its loop when its reader is done begins no other, and has the early close among its failures or found a flag set |
| ReadoutPolls.EveryTurnTests | src/commands.cc:1685-1728 | a worker comes back to the start of its loop only after it saw the stop flag clear, then the interrupt flag clear, then its reader at work |
| ReadoutPolls.StopHasAReason | src/commands.cc:1685-1728 | a stream is stopped only for an early close on record, a flag found set, or the end of the duration |
| ReadoutPolls.CallsHaveAnswers | src/commands.cc:1556-1765 | a recorded start was accepted; stop and calibration have the result the server and the programs answered |
| ReadoutPolls.FailedSetupEnds | src/commands.cc:1482-1575 | a job whose files, log or start fail calls nothing more and fails |
| ReadoutReplies.EveryReplyTests | src/commands.cc:1590-1668 | after a frame that is not dropped the reader asks for more only after it saw both flags clear, or when the frame could not be written |
| ReadoutReplies.ReaderEndsForAReason | src/commands.cc:1590-1680 | a reader ends only at the end of the stream or when a flag is found set |
| ReadoutReplies.StreamEndIsFinal | src/commands.cc:1668-1680 | after that it is done within two of its own steps |
| ReadoutReplies.ReceivedAreReplies | src/commands.cc:1582-1592 | the frames the files are compared with are those the server sent |
| ReadoutExamples.EarlyCloseCanPassUnnoticed | src/commands.cc:1685-1728 | a run in which the server closes the stream before the stop and the job succeeds |
| ReadoutResults.FilesHoldTheStream | src/commands.cc:1590-1672 | at every moment each file on which no write failed holds the frames received for its address in order, and its local counter counts them; the record counts them as well |
| ReadoutResults.FilesAfterTheJoin | src/commands.cc:1764-1782 | after the join such a file, its local counter and the record agree |
| ReadoutResults.StopStays | src/hero_shell.cc:202-207 | no step clears a recorded stop while a job is active |
| ReadoutResults.StopIsHonoured | src/commands.cc:1784-1788 | a stop recorded before the final check means that the job fails, reports the stop and does not calibrate |
| ReadoutResults.NoStopWithoutCause | src/commands.cc:1979-1981 | a job starts with the stop flag clear, and it stays clear until a stop command, exit or a handler that found a job active sets it |
| ReadoutStarts.FlagsReachNewJobs | src/commands.cc:1979-1982 | without a new interrupt or request no test of a starting job's worker or reader finds a flag set, if and only if the interrupt flag is clear and no handler has still to store the request of an earlier job when the stop flag is cleared |
| ReadoutResults.OldRequestsReachNewJobs | src/hero_shell.cc:202-207 | without a new request the stop flag of a starting job is never set, if and only if no handler has still to store the request of an earlier job |
| ReadoutExamples.OldInterruptEndsNewJob | src/hero_shell.cc:202-207 | a run in which an interrupt before the start, whose handler is long done, ends the job, and the record shows neither success nor a stop |
| ReadoutResults.HaltedWithoutStop | src/commands.cc:1784-1787 | a job halts without reporting a stop if and only if its final check found the interrupt flag set and no stop came before the report |
| ReadoutResults.FailureWithoutReason | src/commands.cc:1784-1788 | a job for whose failure nothing on record accounts failed if and only if it was interrupted at its final check |
| ReadoutExamples.OldHandlerStopsNewJob | src/hero_shell.cc:202-207 | a run in which the handler of an interrupt during the first job stops the second |
| ReadoutResults.HandlersStopActiveJobs | src/hero_shell.cc:202-207 | a handler requests a stop exactly when it finds a job active |
| ReadoutResults.StopCommandStops | src/commands.cc:1949-1957 | in every run, a stop command, at any script depth, sets the stop flag if a job is active when it looks, even if the job ends meanwhile, and otherwise fails and changes nothing |
| ReadoutResults.ReportIsExact | src/commands.cc:1983-1984 | in every run, the record reports exactly the success of the job and, independently, whether the stop flag was set when it was loaded for the report |
| ReadoutExamples.SuccessBesideStop | src/commands.cc:1983-1984 | a run from the start of the shell in which this happens |
| ReadoutResults.StoppedJobEnds | src/commands.cc:1713-1788 | with the stop flag set a worker ends within 22 of its own steps, waiting for nothing but its reader |
| ReadoutResults.ExitEnds | src/commands.cc:2039-2053 | the worker that exit waits for was told to stop or is past its work, and needs at most 22 more steps of its own |
| PedestalReadout.AcquiredFileIsRead | src/commands.cc:1842-1848 | the file of a finished job reads back as the frames received for its address, in order, if and only if it does not start like an old-format file |
| PedestalReadout.AcquiredEventsAreUsed | src/commands.cc:1842-1848 | if the frames received are filled with encoded events, calc_pedestal uses exactly the first 8192 of them |
| PedestalReadout.EventsAreNotOldFormat | include/raw2root/raw_data_file.hh:44-49 | frames of which the first starts with an event never look like an old-format file |
| PedestalReadout.GenerateRegister | src/commands.cc:1846-1853 | the pipe of the two programs fails whenever the first one fails, and what it saves is the calibration of the loaded register with the printed medians |

## Left out

- GetNextFrame: does not model reads that wait for the file to grow (watch mode with blocking) and growth inside a
  call.
- ReadData: does not model the wait for an append (`include/raw2root/raw_data_file.hh:138-141`).
- constructor: a raw data file that cannot be opened is not modelled.
- UnpackNextEvent: excludes buffers of more than 2^32 - 32 bytes, where `head_ + 4` wraps as well and the search for a
  footer need not end; the second of two equal footer comparisons, which cannot succeed, is not repeated.
- Initialize: excludes the same buffers.
- SetElement: slice assignment and the type error for a value that is no integer are not modelled.
- SetArray: Python keeps a reference to the list it is given, so later writes to that list bypass the check; the
  model stores its values.
- SetVareg: opening the file, device and address checks, the RPC and the record of the last accepted file name are
  left out.
- ToBase64: `zlib.crc32` and `base64.b64encode` are their reference functions, section 8 of RFC 1952 and section 4
  of RFC 4648.
- FromRaw: takes the bytes after `base64.b64decode`; the errors of that function are left out, here and in
  `SetDelReg`.
- CalcPedestal: prints doubled integers where the program prints decimals; argument handling is left out.
- SetDelReg: takes doubled half-integers; reading the decimal numbers is left out.
- GenerateRegister: the two programs hand over numbers, not text; starting them is left out.
- RunKeeps: the threads are step functions on values, not methods on shared objects, because their steps interleave.
- StoppedJobEnds: counts the worker's own steps; how soon the server closes a cancelled stream is not modelled.
- FilesHoldTheStream: housekeeping frames are written and may fail, but the contents of their file are not modelled.
- The clock: start times are left out and the end of the duration may come at any moment.
- Messages, log file, extended attributes and file names other than the prefix, in the acquisition model.
- Script mode (no interactive shell), where a job runs in the shell's own thread.
- gRPC, channel setup, RMAP polling and the server: their answers are arbitrary.
- Line editing, tokenizer, prompts, help and history: a command is a list of tokens.
- ROOT output, the template Analyzer with its second scanner, address-list and duration parsing, link speed, FPGA
  configuration files and connection counting: easy members or input and output.
- The weak memory order of relaxed atomics.
