# SmartNet recorder: decoder, logger allocation and WAV sink

A Dafny 4.11 model of the recorder for SmartNet II trunked radio, with proofs. It follows the data:

* **Control-channel decoder.** 76 channel bits are deinterleaved (`Interleave`), single information bits are
  corrected from parity syndromes (`Ecc`), a 10-bit check decides acceptance (`Register`, `Crc`), and 37 bits
  are parsed into address, group flag and command (`Packet`) and printed as text (`Text`). `CrcCode` says exactly
  which errors the check misses, `CrcDistance` and `CrcBurst` what follows for few errors and for bursts;
  `Channel`, `ChannelBurst` and `FewErrors` say what the three stages do together to errors on the channel, and
  `Receiver` what that means for messages.
* **Framing.** `DeintBlock` and `CrcBlock` are the two stream blocks as a scheduler calls them, over the
  tagged streams of `Streams`. `Layout` is what the deinterleaver produces over a whole schedule, and `Pipeline` puts
  the blocks in a row, from the bit stream to the queue and from a frame to the state of the recorder.
* **Logger allocation.** `Allocator` is the effect of one control message on the loggers, the counter and the
  display list as a function on values; `Recorder` and `LogDsd` are the objects that the program updates in
  place, proved to compute that function; `Invariant` holds what every message keeps; `CallMap` shows that the
  loggers implement a map from talkgroups to calls; `Runs` proves properties of whole runs.
* **WAV sink.** `WavFile` reads and writes headers and samples, `WavSink` is the appending sink,
  `WavSession` accounts for every frame over whole sessions.

Conventions. Bits of a word are `bool`, stream samples are bytes read through the mask `& 0x01`. The ten value
bits of the check register are a vector `Reg`, with its hexadecimal constants justified by
`Register.Constants`. Frequencies are whole multiples of 12.5 kHz. The clock is the parameter `now`, and runs
assume that it does not go back. Input ports of the flowgraph accept one connection, and taking away an edge
that is absent is illegal: these are the preconditions of `Connect` and `Disconnect`.

What the proofs turned up:

* The check detects every burst of ten bits and every change of up to three bits, and no more than that; the
  undetected patterns are described exactly (`CrcCode.UndetectedIff`).
* Over the channel every burst of up to fourteen bits is repaired or rejected, and fifteen is too many
  (`ChannelBurst.BurstRepairedOrRejected`, `ChannelBurst.BurstLimitIsSharp`). The same holds of any five errors,
  wherever they fall, and six are too many (`FewErrors.FewErrorsRepairedOrRejected`, `FewErrors.ErrorLimitIsSharp`).
* The deinterleaver writes every frame of a call to the start of its output but tags it at its input offset;
  the tags point at their frames exactly when a call finds one preamble at its first sample
  (`DeintBlock.PlacementIff`). It skips a preamble under some schedule exactly when two preambles are closer
  than 84 bits (`DeintBlock.ExactlyOnceIff`). Over a whole schedule it produces the frames one after another, each
  tagged at its start, exactly when every call finds at most one preamble, at its first sample (`Layout.LaidOutIff`);
  on frames without gaps that takes offers of at most 168 samples (`Layout.BackToBackIff`). The same bound keeps a call
  from reporting more samples than a buffer of one frame holds: at 169 it may report 152 (`Layout.OutputFitsIff`).
* The CRC block does not skip untagged samples, so a long enough stretch without a tag stops it
  (`CrcBlock.StuckIff`).
* The group flag is the only field read without the bit mask (`Packet.Parse`); it matters exactly for accepted frames
  with a positive even byte there (`CrcBlock.MessageOfBitsIff`).
* Closing the WAV sink before the first call of the block does not stop a waiting file from being installed: the audio
  that follows a close is dropped exactly when no file was waiting (`WavSession.CloseDropsIff`).
* A closed file is read back with all its frames exactly when its audio is shorter than 2^32 bytes
  (`WavSink.SizeLimitIff`).
* A new logger gets the center frequency in hertz where it expects megahertz; it is tuned when its first call starts
  (`Recorder.Recorder.constructor`).

## Model

| member | source | states |
|---|---|---|
| Crc.Check | smartnet_crc.cc:93-113 | the register loops accept exactly the words whose linear form over GF(2) has one fixed value |
| Crc.ExpectedCheck | smartnet_crc.cc:94-103 | the loop over the payload computes the start value plus the sum of the columns of the set bits |
| Crc.GivenCheck | smartnet_crc.cc:105-110 | the loop over the check bits reads their inverses as a number |
| Crc.AcceptsWhenEqual | smartnet_crc.cc:112 | comparing given and expected check is the same as testing the linear form |
| Register.StepIsFeedback | smartnet_crc.cc:100-101 | the linear map used in the theory is the shift with conditional feedback 0x0225 |
| Register.Constants | smartnet_crc.cc:94-101 | the register constants are the numbers of the source |
| CrcCode.ColumnStep | smartnet_crc.cc:99-110 | the 37 columns, payload and check bits together, are successive states of one register: a shortened cyclic code |
| CrcCode.SyndromeBalanced | smartnet_crc.cc:93-113 | an error has syndrome zero exactly when ten parities of its positions are even, six modulo 9 and four along a sequence of period 15 |
| CrcCode.UndetectedIff | smartnet_crc.cc:93-113 | a change of an accepted word is accepted again exactly when it is balanced in that sense |
| CrcDistance.MinimumDistance | smartnet_crc.cc:93-113 | two different accepted words differ in at least four places |
| CrcBurst.SyndromeDelay | smartnet_crc.cc:99-102 | delaying an error by one position steps its syndrome, so it stays caught or uncaught |
| CrcBurst.BurstRejected | smartnet_crc.cc:93-113 | every non-empty change of an accepted word within ten consecutive bits is rejected |
| CrcBurst.DistanceFourIsSharp | smartnet_crc.cc:93-113 | every accepted word has an accepted word at distance exactly four |
| CrcBurst.TenBitBurstIsSharp | smartnet_crc.cc:93-113 | every accepted word has an accepted one that differs by a burst of eleven |
| Ecc.Syndromes | smartnet_crc.cc:63-80 | the two loops leave 1 where a received parity bit is not the parity of the information bits received, and 0 everywhere else |
| Ecc.CorrectFrame | smartnet_crc.cc:82-90 | the output bits are the corrected bits, every output byte is the received byte as it came or a 0 or 1 with the other low bit, and the guard bit is never written |
| Ecc.CorrectedTranslates | smartnet_crc.cc:63-91 | what remains of an error after correction does not depend on the message sent |
| Ecc.BitRightIff | smartnet_crc.cc:82-90 | for every error pattern, exactly when an output bit is right |
| Interleave.DeinterleaveFrame | smartnet_deinterleave.cc:122-126 | the nested loops write the 4 x 19 transposition of the frame and nothing else |
| Interleave.RoundTrip | smartnet_deinterleave.cc:122-126 | interleaving and deinterleaving undo each other |
| Channel.ReceivedTranslates | smartnet_deinterleave.cc:122-126 | deinterleaving and correction of a transmitted frame with errors give the message plus a residual error that depends on the errors alone |
| Channel.SpreadRepaired | smartnet_crc.cc:82-90 | any number of channel errors is repaired when their positions modulo 19 are pairwise two or more apart |
| Channel.ParityRowHarmless | smartnet_crc.cc:82-90 | any errors within one row of parity bits leave every output bit right |
| ChannelBurst.BurstRepairedOrRejected | smartnet_crc.cc:63-171 | after any channel burst of up to fourteen bits the word is the one sent, or it is rejected |
| ChannelBurst.BurstLimitIsSharp | smartnet_crc.cc:168-171 | one burst of fifteen turns every accepted word into a different accepted word |
| FewErrors.WrongBitCostsTwo | smartnet_crc.cc:82-90 | behind every wrong output bit there are two channel errors among the six received bits that decide it |
| FewErrors.TwoWindowsUnbalanced | smartnet_crc.cc:93-113 | no non-zero change that fits into two windows of three positions passes the check |
| FewErrors.FewErrorsRepairedOrRejected | smartnet_crc.cc:63-171 | after up to five channel errors anywhere the word is the one sent, or it is rejected |
| FewErrors.ErrorLimitIsSharp | smartnet_crc.cc:63-171 | six errors turn every accepted word into a different accepted word |
| FewErrors.MisreadIff | smartnet_crc.cc:63-171 | a frame is misread exactly when what correction leaves of its errors is not zero and balanced |
| Packet.ReadField | smartnet_crc.cc:125-128 | a field is the number whose binary digits are the inverted bits |
| Packet.Parse | smartnet_crc.cc:115-136 | every digit of address and command is the inverse of its received bit added to the digit of 0x33C7 or 0x032A, every digit of the check field the inverse of its bit; the group flag tests the whole byte, which agrees with its low bit exactly when it is zero or odd |
| Numbers.XorDigits | smartnet_crc.cc:132-133 | the exclusive or of two numbers is that of their digits |
| Numbers.DigitWeight | smartnet_crc.cc:125-128 | digit k of a field counts the power of two that its place gives it |
| Packet.AcceptedIffChecked | smartnet_crc.cc:93-113 | a word is accepted exactly when its last ten bits are the check bits of its first 27 |
| Packet.ComposedParses | smartnet_crc.cc:115-136 | every address below 65536, flag and command below 1024 has an accepted word that parses back to them |
| Packet.ParsedComposes | smartnet_crc.cc:115-136 | every accepted word is the word of the fields it parses to, so the two are in bijection |
| Text.MessageRoundTrip | smartnet_crc.cc:177-180 | the recorder's split and number reading return exactly the three printed numbers |
| Text.PrintedMessage | smartnet_crc.cc:177-180 | address, group flag and command are printed in that order, in decimal, between commas |
| Text.MaskClearsLowDigits | smartnet.cc:321 | the talkgroup is the address with all but twelve of its low sixteen binary digits cleared |
| Receiver.DeliveredThroughSpreadErrors | smartnet_crc.cc:167-181 | every message arrives through any spread errors |
| Receiver.NeverMisreadInBurst | smartnet_crc.cc:167-181 | through a burst of up to fourteen bits a message arrives as sent or not at all |
| Receiver.NeverMisreadWithFewErrors | smartnet_crc.cc:167-181 | with up to five errors anywhere a message arrives as sent or not at all |
| CrcBlock.DecodeFrame | smartnet_crc.cc:167-181 | correction, check, parse and print of one frame in place give the message of its bytes, whatever they are |
| CrcBlock.MessageOfBitsIff | smartnet_crc.cc:126 | that message is the one of the low bits alone, exactly unless an accepted frame has a positive even byte at the group flag |
| CrcBlock.CrcBlock.Work | smartnet_crc.cc:138-185 | a call with more than 76 samples queues the messages of all frames tagged among all but the last 76; it consumes all but 76 if there is such a tag and nothing otherwise |
| CrcBlock.ConsumedExact | smartnet_crc.cc:146-184 | from the tags alone: what a call consumes leaves 76 samples, and it consumes exactly when a tag is in reach |
| CrcBlock.ExactlyOnce | smartnet_crc.cc:146-184 | however the stream is cut into calls, the queue holds the messages of the frames tagged below the read position, each once, in order |
| CrcBlock.StuckIff | smartnet_crc.cc:146-159 | with bounded offers, each a multiple of 38, the block can never move again exactly when no tag lies in the part that the longest offer lets it look at |
| DeintBlock.DeintBlock.GeneralWork | smartnet_deinterleave.cc:86-141 | one call's read position, output length, output buffer and tags from the preambles among all but the last 84 samples; a call with more than 84 samples always moves, a shorter one changes nothing |
| DeintBlock.CallExact | smartnet_deinterleave.cc:97-139 | from the tags alone: which preambles a call handles, and where it goes on with and without one |
| DeintBlock.LastFrameStays | smartnet_deinterleave.cc:122-126 | the buffer ends up with the last frame's samples in rows and columns, and with what it held behind them |
| DeintBlock.EveryPreambleHandled | smartnet_deinterleave.cc:97-139 | after enough calls with more than 84 samples each, every preamble of a stream with preambles 84 apart has been handled |
| DeintBlock.ExactlyOnceIff | smartnet_deinterleave.cc:97-118 | every schedule handles each preamble below the read position once and in order exactly when preambles are at least 84 bits apart |
| DeintBlock.NeverTwice | smartnet_deinterleave.cc:110-139 | no schedule handles a preamble twice or out of order, however close preambles are |
| DeintBlock.PlacementIff | smartnet_deinterleave.cc:116-136 | the emitted tags point at their frames, for every prior buffer content, exactly when a call finds one preamble at its first sample |
| Layout.Drive | smartnet_deinterleave.cc:86-141 | the samples produced and the tags emitted over any schedule of offers and buffers, from the block's own calls |
| Layout.LaidOutIff | smartnet_deinterleave.cc:110-140 | these are frame after frame with a tag at the start of each, for all buffers, exactly when every call finds at most one preamble, at its first sample |
| Layout.BackToBackIff | smartnet_deinterleave.cc:97-140 | on frames without gaps that is so exactly when every offer is at most 168 samples |
| Layout.OutputFitsIff | smartnet_deinterleave.cc:108-140 | room for a number of frames is enough for every stream with preambles 84 apart exactly for offers of at most 84 samples for each frame and 84 more |
| Pipeline.EveryPreambleOnce | smartnet.cc:575-577 | on the samples and tags that the deinterleaver produces, under any two schedules that keep its layout and offer only what is there, the queue holds the messages of the first preambles, each once, in order |
| Pipeline.QueueFaithful | smartnet.cc:575-577 | from the air through both blocks: with five errors, a burst of fourteen or spread errors in each frame, only messages that were sent are queued, in order; with spread errors every one of them |
| Pipeline.BurstMovesNothingElse | smartnet.cc:604-605 | a frame hit by a burst of up to fourteen bits does to the recorder what the sent message does, or nothing |
| Pipeline.FewErrorsMoveNothingElse | smartnet.cc:604-605 | the same for a frame with up to five errors anywhere |
| Pipeline.SpreadErrorsHarmless | smartnet.cc:604-605 | a frame with spread errors does to the recorder what the sent message does |
| Allocator.FrequenciesNameChannels | smartnet.cc:259-348 | commands below 0x230 have distinct frequencies, and the frequency is non-zero exactly for those commands and addresses other than 56016 and 8176 |
| Allocator.FrequencyInMegahertz | smartnet.cc:259-270 | the unit frequencies are the megahertz formulas of the source, in exact arithmetic |
| Allocator.FindIff | smartnet.cc:411-417 | the lookup finds an entry exactly when one has the number |
| Allocator.FindFirst | smartnet.cc:411-417 | the entry found is the first with the number |
| Allocator.ListedCallStarts | smartnet.cc:419-444 | a new call of the first entry with its number starts on the first idle logger, with its data, counter and display entry, exactly below six, four or two busy loggers for priority 1, 2 or 3 |
| Allocator.UnknownIgnored | smartnet.cc:411-447 | a talkgroup that is not in the list changes nothing |
| Allocator.ErasesFirst | smartnet.cc:360-366 | only the first display entry with the number goes |
| LogDsd.LogDsd.constructor | logging_receiver_dsd.cc:36-108 | a new logger is idle, tuned, connected to the null sink only, and its sink has a file open that is named for its data |
| LogDsd.LogDsd.Activate | logging_receiver_dsd.cc:241-283 | on an idle logger every connection made or removed is legal, and the result is the whole chain of seven edges, the new call data, the prefilter at center minus channel and a file open that is named for the call |
| LogDsd.LogDsd.FlowsIff | logging_receiver_dsd.cc:172-283 | in every valid state samples reach the file exactly while the logger is active, and the null sink exactly while not |
| LogDsd.RecordingFlows | logging_receiver_dsd.cc:270-278 | while recording the one way to the file leads through prefilter, downsampling, demodulator, symbol filter, levels and decoder, in that order |
| LogDsd.LogDsd.Deactivate | logging_receiver_dsd.cc:172-197 | on an active logger every connection made or removed is legal, the file is closed, the idle edge results, and call data and tuning stay |
| LogDsd.LogDsd.Unmute | logging_receiver_dsd.cc:115-119 | the timestamp becomes the current time |
| LogDsd.LogDsd.TuneOffset | logging_receiver_dsd.cc:167-171 | the frequency becomes the given one, the prefilter follows it, and the file keeps its name |
| Recorder.Recorder.constructor | smartnet.cc:247-257 | six separate idle loggers and an empty display list, a state that keeps the invariant |
| Recorder.Recorder.ParseMessage | smartnet.cc:315-458 | the loggers, counter and display list change exactly as the value-level step for the fields of the text, flowgraphs stay legal, and the invariant is kept |
| Recorder.Recorder.Reap | smartnet.cc:354-377 | the first loop in place is the value-level reaping, so `deactivate` meets only active loggers |
| Recorder.Recorder.Refresh | smartnet.cc:378-405 | the second loop in place retunes and refreshes the loggers of the talkgroup and reports whether there is one |
| Recorder.Recorder.Admit | smartnet.cc:408-447 | with the first list entry of the talkgroup and the first idle logger, below six, four or two busy loggers the call starts there and the entry is shown; otherwise, and without an entry, nothing changes |
| Recorder.Recorder.EraseShown | smartnet.cc:360-366 | the display loop removes the first entry with the number |
| Recorder.Recorder.FilesDistinct | logging_receiver_dsd.cc:262 | in every state that keeps the invariant no two active loggers record to one file |
| Invariant.ReapedSlots | smartnet.cc:354-377 | after reaping exactly the loggers silent for more than four seconds are off, nothing else about a logger changed, and the invariant holds |
| Invariant.RoomForRecording | smartnet.cc:433-442 | whenever a call is to be recorded an idle logger exists and the counter does not wrap |
| Invariant.StepKeeps | smartnet.cc:353-449 | every message keeps: the counter counts the active loggers, no talkgroup is served twice, the display list holds exactly the active talkgroups once each |
| CallMap.StepRefines | smartnet.cc:353-449 | on the map of calls a message drops silent calls, then refreshes the call or opens it if its priority admits it at the map's size |
| Runs.RunRefines | smartnet.cc:594-605 | over every run the loggers implement the map run and the counter is its size |
| Runs.RunReserved | smartnet.cc:420-422 | over every run at most two calls have priority 3, at most four priority 2 or 3, at most six exist |
| Runs.RecorderSafe | smartnet.cc:408-447 | from the start, over every run, the invariant and the reservation hold of the loggers |
| Runs.RefusedIff | smartnet.cc:419-431 | for each priority, exactly when a new call is refused, and how many higher-priority calls are then running |
| Runs.CallsFollowTrace | smartnet.cc:381-391 | a call's frequency and time are those of the last effective message for its talkgroup in the whole trace |
| Runs.LoggersFollowTrace | smartnet.cc:381-393 | the same on the loggers from the start, down to the command that names the channel |
| Runs.NoStaleLoggers | smartnet.cc:357 | right after an effective message no active logger has been silent for more than four seconds |
| Runs.ContinuesIff | smartnet.cc:354-391 | a call goes on with the start it had exactly while its silences at effective messages stay within four seconds |
| Runs.StaysOnLogger | smartnet.cc:378-393 | an unbroken call stays on the logger where it began |
| WavFile.HeaderWrite | smartnet_wavfile.cc:237-271 | copying the fields into the template writes the 44 header bytes of the format with blank sizes |
| WavFile.HeaderBytes | smartnet_wavfile.cc:237-271 | every byte of the header: names, a format chunk of 16 bytes without compression, channels, rate, byte rate, block size, bits and the two sizes |
| WavFile.Value32 | smartnet_wavfile.cc:237-271 | four-byte fields have the least significant byte first |
| WavFile.HeaderComplete | smartnet_wavfile.cc:293-313 | the data size goes to byte 40 and the RIFF size to byte 4 |
| WavFile.Completed | smartnet_wavfile.cc:293-313 | completing a header changes its two sizes and nothing else in the file |
| WavFile.HeaderParse | smartnet_wavfile.cc:135-222 | reading field by field returns what the header says, including skipped format bytes |
| WavFile.HeaderRoundTrip | smartnet_wavfile.cc:135-313 | a written and completed header parses to the same format, first sample at 44 and the whole frames of its data size |
| WavFile.AnyHeaderParses | smartnet_wavfile.cc:135-222 | of all headers, with any number of extra format bytes, exactly those with compression type 1, 8 or 16 bits and a channel are read, and the extra bytes are skipped |
| WavFile.ParsedForm | smartnet_wavfile.cc:135-222 | whatever is read has the form of such a header |
| WavFile.WriteSample | smartnet_wavfile.cc:274-290 | one sample is written as an unsigned byte or two bytes in two's complement, least significant first |
| WavFile.SampleEndian | smartnet_wavfile.cc:274-290 | one byte modulo 256, or two modulo 65536 with the least significant first |
| WavFile.ReadSample | smartnet_wavfile.cc:225-234 | the sample at the position is read, and the position moves behind it; at the end of the file it is zero |
| WavFile.SampleRoundTrip | smartnet_wavfile.cc:225-290 | a sample in range is read back as written |
| WavSink.CompletedSound | smartnet_wavsink.cc:208-220 | completing a header with the length of the audio makes a finished file with the same audio |
| WavSink.SoundParses | smartnet_wavsink.cc:143-157 | a finished file parses and its frame count is the length of its audio |
| WavSink.SizeLimitIff | smartnet_wavsink.cc:208-220 | with its sizes taken modulo 2^32 a completed file is read back with all its frames exactly when its audio is shorter than 2^32 bytes |
| WavSink.WavSink.Open | smartnet_wavsink.cc:105-194 | for every file content which of the four outcomes it has, and that an opened file waits with the audio it had or empty, the previous waiting file being closed |
| WavSink.WavSink.CloseWav | smartnet_wavsink.cc:208-220 | the current file ends up finished on the disk with all its audio, its RIFF size eight less than its length |
| WavSink.WavSink.Close | smartnet_wavsink.cc:197-206 | only the current file is closed; a waiting one is left waiting |
| WavSink.WavSink.DoUpdate | smartnet_wavsink.cc:307-341 | the waiting file becomes the current one with its sample count right, the one before it being finished |
| WavSink.WavSink.Work | smartnet_wavsink.cc:233-271 | behind what the current file held, every frame reads back channel by channel as the samples of the inputs, 0 where there is no input; without a current file all is dropped |
| WavSink.AudioPlays | smartnet_wavsink.cc:252-267 | the bytes of a call, wherever they are written, read back as its inputs, frame by frame and channel by channel |
| WavSink.WavSink.ClosedFilesComplete | smartnet_wavsink.cc:208-220 | every managed file that is not open parses, is 44 bytes longer than its audio and holds exactly that |
| WavSession.Drive | smartnet_wavsink.cc:105-271 | any legal list of opens, calls of the block and closes, done by the sink's own methods, leaves the sink valid and where the session steps say |
| WavSession.RecordSession | smartnet_wavsink.cc:105-271 | after such a session every file of the sink that is not open parses, is 44 bytes longer than its audio, holds what it held, followed by exactly the audio sent to it, and plays the inputs of every call at its place; other files are untouched |
| WavSession.ContentsOfRun | smartnet_wavsink.cc:105-271 | on the session steps each file holds what it held, followed by exactly the audio that the history of calls sends to it |
| WavSession.CloseDropsIff | smartnet_wavsink.cc:197-206 | the audio after a close is dropped exactly when no file was waiting; otherwise it goes to the waiting file |
| WavSession.Conservation | smartnet_wavsink.cc:245-268 | on the session steps audio in equals audio stored, once, plus audio dropped |

## Left out

- Ecc.Syndromes: stops at the frame length where the source's loop runs to twice that; nothing beyond the frame is used.
- Layout.Drive: takes every call to have room for what it writes; what the framework does with a call that reports more is not modelled. When there is room is `Layout.OutputFitsIff`.
- Pipeline.EveryPreambleOnce: is about schedules that keep the layout, which `Layout.LaidOutIff` shows to be the ones where the deinterleaver does what it is meant to do; what the queue holds otherwise depends on old contents of buffers.
- Text.Atoi: does not model overflow of the machine integer, which no printed message reaches.
- Recorder.Recorder.ParseMessage: texts with fewer than three fields are excluded, because the source then reads past its list of fields; the clock is read once per message.
- Runs.RunRefines: the clock does not go back during a run.
- WavFile.FormatParse: a file that ends inside its header counts as not a WAV file, where the source goes on with fields it never read.
- WavFile.HeaderParse: a header that names zero channels counts as not a WAV file, where the source divides by zero.
- WavFile.ReadSample: takes one byte left of a two-byte sample as its low byte, where the C standard leaves the value open.
- WavSink.WavSink.Open: a file is not opened while it is open, because what the second handle then finds on the disk depends on how much of the first has been flushed; a compatible file on the disk is one that was closed after it was written; the state after a refused file is not described. `WavSession.Legal` is this condition on whole sessions.
- WavSink.WavSink.Work: the audio of a file stays below 2^32 bytes, beyond which the header is wrong (`WavSink.SizeLimitIff`); write errors are not modelled, and an open file reaches the disk when it is closed.
- LogDsd.LogDsd.Deactivate: does not model resetting the decoder and writing the status file; locking the flowgraph is not modelled either.
- Tag search is over the half-open range of positions, and tags are found in order of position.
- Conversion of floating-point samples, changing the sample format or rate while a sink is open, big-endian hosts.
- Demodulation, filters, the DSD decoder, flowgraph locking, the printing of file names and their directories, status files, uploads, windows and menus.
- Parsing of the channel list file; the list is a sequence searched from its front.
- The other receivers (P25, POCSAG) and the status message, whose handling is commented out.
