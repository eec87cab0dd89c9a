# Verified model of poesie's data layer

This project models, in Dafny, the parts of poesie that move bytes, and proves what they promise.

- **Lua memory library** (`src/lua/memory/lmemlib.c`): `memory.pack` and `memory.unpack`, which follow section 6.4.2 of
  the Lua 5.4 Reference Manual but write in place, and the byte-array operations beside them.
  `Format.dfy` turns a format string into instructions, `PackSpec.dfy` says what the two interpreters do with them,
  `PackBytes.dfy` says it again in numbers, `PackLaws.dfy` and `RepackLaws.dfy` prove that each undoes the other, and
  `PackCalls.dfy` holds the C loops and what a Lua program sees. `IntCodec.dfy`, on `Bits.dfy`, is the integer codec. `Slices.dfy`, `Search.dfy`, `Fill.dfy` and
  `Compare.dfy` are the other operations.
- **References and the growable buffer** (`src/lua/memory/luamem.c`): `RefCells.dfy` and `RefRuns.dfy` prove ownership of
  allocator blocks over all runs, `GrowBuffer.dfy` the growth of the string buffer.
- **JSON on the wire** (`include/poesie/JsonSerialize.hpp`): `JsonWire.dfy`, `JsonLaws.dfy`, `JsonArchive.dfy`.
- **MemoryView** (`src/MemoryView.cpp`, `src/MemoryViewImpl.hpp`): `ViewCodec.dfy` for its JSON forms, `LazyView.dfy` for
  its local data, and `ArgumentTrip.dfy` for views inside RPC arguments.

Routines that loop or update state are methods over arrays, archives and objects, each proved against a function; the
laws are lemmas about those functions, for all inputs and all runs.

## Choices

- The platform is 64-bit with two's complement: `short`, `int`, `long`, `size_t`, `lua_Integer`, `float` and `double` take
  2, 4, 8, 8, 8, 4 and 8 bytes, and `MAXALIGN` is 8. Words wrap around where the C code's do. Its byte order, the
  signedness of `char`, the conversions of the Lua API (`luaL_checkinteger`, `luaL_checknumber`, `luamem_checkarray`) and
  the narrowing of floats are parameters, so the laws hold for any of them; where a law depends on a conversion being exact, it
  says of which values (`Plain`, `AllMatch`, `Survives`). Widening and narrowing may lose a float image, as a machine does
  that quiets signalling NaNs; `PackCalls.UnpackThenPack` says exactly what that costs.
- A raised error is an outcome like any other. After one, the memory is what the C code had written by then.
- Lengths of arrays are below 2^63, as Lua guarantees. A NULL base (a reference to empty memory) is a parameter of packing.
- The allocator is free to fail, and to place a new block anywhere that is not live.
- In the wire format every scalar is its own bytes on a little-endian machine, and a string is a length and its bytes,
  which is what the archives of thallium do; the archives, and the numbering of JSON kinds in nlohmann::json, are not part of the repository.
- A serialised bulk handle is an opaque string. A bulk is a flat array, and a transfer copies between windows.
- `memory.find`: the end position is computed from the whole needle although the comparison clips it to the window, so it
  can lie outside the window. The model follows the code; `Search.ReportedRange` says exactly when.
- `MemoryView.hpp` says that the size of a view defaults to the size of the bulk minus the offset. The constructor uses the
  size of the bulk, so that an offset without a size is rejected (`ViewCodec.InsideIsAccepted`). The model follows the code.
- The sum of offset and size is taken in a 64-bit word, so that the window check passes some windows outside the bulk
  (`ViewCodec.AcceptedWindow`).

## Model

| member | source | states |
|---|---|---|
| IntCodec.GetBytes | src/lua/memory/lmemlib.c:563-572 | Hands out room exactly when the base is not NULL and the end stays within the memory; the wrapping sum never misleads it. |
| IntCodec.PackInt | src/lua/memory/lmemlib.c:608-625 | Writes, in either byte order, the two's-complement bytes of the integer in 1 to 16 bytes (sign-extended past the eighth when asked), changes no other byte, and nothing at all when there is no room. |
| IntCodec.UnpackInt | src/lua/memory/lmemlib.c:745-768 | Returns the integer the bytes mean as two's complement or unsigned, and raises an error exactly when that does not fit a Lua integer. |
| IntCodec.DecodeEncode | src/lua/memory/lmemlib.c:745-768 | For every size and signedness, unpacking a packed integer that passes the range checks gives it back. |
| IntCodec.EncodeDecode | src/lua/memory/lmemlib.c:608-625 | Every byte string that unpacks is restored byte for byte by packing its value, and the range checks let that value through. |
| IntCodec.SignExtend | src/lua/memory/lmemlib.c:754-758 | The exclusive-or and subtraction with the sign mask is the signed reading of a field shorter than eight bytes. |
| IntCodec.Overlong | src/lua/memory/lmemlib.c:760-766 | A field longer than eight bytes is readable exactly when all extra bytes repeat the sign (or are zero when unsigned), and then means its low eight bytes. |
| Format.GetNum | src/lua/memory/lmemlib.c:456-467 | The loop reads the numeral of the specification; that specification never passes INT_MAX and stays inside the format. |
| Format.NumeralIsDecimal | src/lua/memory/lmemlib.c:456-467 | The value of a numeral is the decimal value of exactly the digits consumed. |
| Format.NumeralStops | src/lua/memory/lmemlib.c:458-467 | Every digit is read, unless another one might overflow an int. |
| Format.GetNumLimit | src/lua/memory/lmemlib.c:473-479 | Accepts exactly the sizes 1 to 16. |
| Format.ReadOption | src/lua/memory/lmemlib.c:495-530 | Each option that is not an error consumes at least one character, none of them the terminator, and yields a size in its documented range. |
| Format.TableIsRead | src/lua/memory/lmemlib.c:495-518 | Every letter that moves data or padding is read as the kind and size of an independent table of letters, i, I and s with the numeral that follows, if any, and an error when that is not from 1 to 16. |
| Format.OtherLetters | src/lua/memory/lmemlib.c:514-527 | c needs a numeral; < sets little-endian, > big-endian, = the native order; ! sets the maximum alignment to the numeral or 8; every other letter is an error. |
| Format.TokenLaw | src/lua/memory/lmemlib.c:542-559 | An option is aligned to its size or the maximum alignment, whichever is smaller; X takes the size of the next option and uses it up; fixed-size strings and sizes 0 and 1 are not aligned; an alignment that is no power of two is an error. |
| Format.Header.constructor | src/lua/memory/lmemlib.c:485-489 | A header starts in native order with maximum alignment 1. |
| Format.Header.GetOption | src/lua/memory/lmemlib.c:495-530 | The switch over options, with its updates of byte order and maximum alignment, meets ReadOption. |
| Format.Header.GetDetails | src/lua/memory/lmemlib.c:542-560 | Option, size, configuration and next position are those of ReadToken, and the masked expression gives the padding of PaddingIsLeast. |
| Format.PaddingIsLeast | src/lua/memory/lmemlib.c:557 | The padding is the least number of bytes that takes the offset to a multiple of the alignment. |
| Format.MaskTestsPowerOf2 | src/lua/memory/lmemlib.c:555-556 | The bit test singles out the powers of two among the alignments 1 to 16. |
| Format.MaskIsPadding | src/lua/memory/lmemlib.c:557 | The double mask equals the padding defined by remainders, for every offset. |
| PackBytes.EncodeLaw | src/lua/memory/lmemlib.c:662-721 | Which values each option takes, as numeric ranges, lengths and absence of zeros, and what bytes it makes of them, byte by byte and in either byte order. |
| PackBytes.StepPacks | src/lua/memory/lmemlib.c:656-729 | Every option in numbers: when it raises an error or finds no room, where the cursor stops in each case, and which bytes are written, those left behind by a string that does not fit included. |
| PackLaws.PackKeeps | src/lua/memory/lmemlib.c:645-734 | On every outcome of a run (true, false or a raised error) the cursor only advances and stays in the memory, all bytes outside what was packed keep their values, and so do all alignment and 'x' bytes. |
| PackLaws.RunStops | src/lua/memory/lmemlib.c:574-580 | A run that is cut short got as far as one option, whose lack of room or error is as the numbers of PackBytes.Packs say: so is the cursor it leaves. |
| PackLaws.RunLaw | src/lua/memory/lmemlib.c:645-734 | Every run is a chain of options, each as the numbers of PackBytes.Packs say. |
| PackLaws.PackFits | src/lua/memory/lmemlib.c:563-572 | If a run goes through in a longer memory, it goes through in this one exactly when its end lies in it, with the same bytes; otherwise it ends for lack of room. |
| PackLaws.StepRoundTrip | src/lua/memory/lmemlib.c:789-831 | Option by option: over any memory that agrees up to the packer's cursor, the reader pushes the value packed and stops at the same offset. |
| PackLaws.RoundTrip | src/lua/memory/lmemlib.c:771-835 | Whole formats: what a successful run packed reads back, item for item and to the same offset, across byte-order and alignment changes, padding, and both kinds of string. |
| RepackLaws.Repack | src/lua/memory/lmemlib.c:645-734 | Packing back what was unpacked with the same format always succeeds and stops at the same offset, and it changes no byte exactly when every image read by an option f survives being widened and narrowed. |
| PackCalls.PackThenUnpack | src/lua/memory/lmemlib.c:771-835 | For every program of instructions, so for every format: after memory.pack returns true, memory.unpack with the same format and start (or none, if that was 1) returns the consumed values (as converted and narrowed) and the same next position. |
| PackCalls.StartDefaults | src/lua/memory/lmemlib.c:776 | memory.unpack without a start position reads from position 1. |
| PackCalls.ReadBackIsExact | src/lua/memory/lmemlib.c:687-691 | Values of the options' own types, and floats that survive narrowing, read back unchanged and in order. |
| PackCalls.PackThenUnpackExact | src/lua/memory/lmemlib.c:771-835 | So unpacking after a successful pack of such values returns exactly the consumed prefix of the arguments and the same next position. |
| PackCalls.UnpackThenPack | src/lua/memory/lmemlib.c:645-734 | memory.pack of the results of memory.unpack always returns true and the same position, and leaves the memory as it was exactly when every image read by an option f survives being widened and narrowed. |
| PackCalls.LostImage | src/lua/memory/lmemlib.c:797-804 | Where widening and narrowing do not restore an image (a signalling NaN on common machines), unpacking it with f and packing the result leaves other bytes. |
| PackCalls.PackCallFrame | src/lua/memory/lmemlib.c:574-580 | Of every returning call: the position lies between the start and one past the end, bytes before the start and from the position on are kept, so are alignment and x bytes between them, and the values after false are a suffix of the arguments. |
| PackCalls.PackCallLaw | src/lua/memory/lmemlib.c:645-734 | The whole call in numbers: an error when the start lies past the end; otherwise the chain of options from the start, true or false, one past the cursor where it ended, and the values not consumed. |
| PackCalls.PackCallStops | src/lua/memory/lmemlib.c:574-599 | After false, some option found no room where the options before it left the cursor; the position returned is one past the cursor that the numbers of PackBytes.Packs give, and the values returned are those from its own on. |
| PackCalls.ShortFormats | src/lua/memory/lmemlib.c:500-525 | The formats <h, >h and =h ask for a two-byte signed integer in little-endian, big-endian and native order. |
| PackCalls.ShortBytes | src/lua/memory/lmemlib.c:645-734 | memory.pack with <h writes n mod 256, then n / 256 mod 256, with >h the reverse and with =h in native order, and returns true and the position two further on. |
| PackCalls.PackCallFits | src/lua/memory/lmemlib.c:563-572 | A call that succeeds in a longer memory, from any start position that means the same offset, succeeds in a shorter one exactly when the position it returns fits there, and otherwise returns false, or raises an error exactly when the start itself lies past its end. |
| PackCalls.PackFailed | src/lua/memory/lmemlib.c:574-580 | The two replaced stack slots and the count of results amount to false, the position and the arguments not consumed. |
| PackCalls.CopyWithEndian | src/lua/memory/lmemlib.c:632-643 | Copies an image as it is, or reversed when the orders differ, and touches nothing else. |
| PackCalls.PackStream | src/lua/memory/lmemlib.c:591-599 | Writes the string at the cursor if it fits and nothing otherwise. |
| PackCalls.PackChar | src/lua/memory/lmemlib.c:582-589 | Writes one byte at the cursor if it fits and nothing otherwise. |
| PackCalls.PackOption | src/lua/memory/lmemlib.c:661-729 | The switch of mem_pack, with its count of arguments, meets PackSpec.PackItem, about which the laws above are proved. |
| PackCalls.PackSigned | src/lua/memory/lmemlib.c:662-671 | Signed integers: shift-computed limits are the two's-complement range; what is written or raised is as specified. |
| PackCalls.PackUnsigned | src/lua/memory/lmemlib.c:672-680 | Unsigned integers, likewise. |
| PackCalls.PackFloat | src/lua/memory/lmemlib.c:681-693 | Floats: the image of the option's size in the requested order. |
| PackCalls.PackChars | src/lua/memory/lmemlib.c:694-701 | Fixed-size strings, with the error for a wrong length. |
| PackCalls.PackCounted | src/lua/memory/lmemlib.c:708-711 | Length prefix and body are two separately checked writes; a failure of the second leaves the first in place. |
| PackCalls.PackString | src/lua/memory/lmemlib.c:702-712 | Length-prefixed strings: the value, the range check of the length and what is written are as specified. |
| PackCalls.PackZstr | src/lua/memory/lmemlib.c:713-721 | Zero-terminated strings, with the error for embedded zeros; a failure may leave the body written. |
| PackCalls.PackNext | src/lua/memory/lmemlib.c:656-660 | One round of the loop, alignment included, is one step of the specification. |
| PackCalls.MemPack | src/lua/memory/lmemlib.c:645-734 | The loop over the format, on an array it writes in place, returns and leaves exactly what PackCall says of the program the format is read as, on every path. |
| PackCalls.UnpackOption | src/lua/memory/lmemlib.c:789-831 | The switch of mem_unpack meets PackSpec.Decode. |
| PackCalls.UnpackString | src/lua/memory/lmemlib.c:811-817 | Length-prefixed strings, with the error when the data is too short. |
| PackCalls.UnpackZstr | src/lua/memory/lmemlib.c:818-826 | Zero-terminated strings, with the error when there is no zero. |
| PackCalls.UnpackNext | src/lua/memory/lmemlib.c:783-785 | The room check and the item are one step of the specification. |
| PackCalls.MemUnpack | src/lua/memory/lmemlib.c:771-835 | The loop returns exactly what UnpackCall says of the program the format is read as, on every path. |
| Slices.PosRelatI | src/lua/memory/lmemlib.c:301-309 | In wrapping 64-bit arithmetic, the start position of section 6.4 of the Lua 5.4 Reference Manual, for every position and length. |
| Slices.GetEndPos | src/lua/memory/lmemlib.c:316-326 | Likewise the end position. |
| Slices.PositionsMean | src/lua/memory/lmemlib.c:301-326 | k counted back from the end is len + 1 - k; positions before the start begin at 1 and end at 0; positions past the end end at len. |
| Slices.Slice | src/lua/memory/lmemlib.c:316-326 | A slice is empty exactly when its ends cross, and otherwise lies inside the array. |
| Slices.SliceNeverTooLong | src/lua/memory/lmemlib.c:154-155 | The overflow guards of mem_create and mem_find are never taken. |
| Slices.MemCreate | src/lua/memory/lmemlib.c:16-45 | A zeroed block of a valid length, or a copy of the slice; an error exactly for an invalid length. |
| Slices.MemToString | src/lua/memory/lmemlib.c:99-107 | Returns the slice. |
| Slices.MemGet | src/lua/memory/lmemlib.c:328-341 | Returns the bytes of the slice, whose end defaults to its start; an error exactly when they are more than INT_MAX. |
| Slices.Code2Char | src/lua/memory/lmemlib.c:343-350 | Writes the codes up to the first that is no byte, and raises an error exactly if there is one. |
| Slices.MemSet | src/lua/memory/lmemlib.c:134-143 | Writes as many codes as there is room for from the position on; what is written before an error stays. |
| Search.LMemFind | src/lua/memory/lmemlib.c:352-371 | Returns the least offset at which the needle occurs and none only when there is none; the bytes skipped by memchr are no matches. |
| Search.FirstIsUnique | src/lua/memory/lmemlib.c:352-371 | What the search has to return is determined: there is at most one least offset, and none only without occurrences. |
| Search.MemFind | src/lua/memory/lmemlib.c:145-166 | The first occurrence, inside the window, of the needle clipped to the window, and an end that is start plus unclipped needle length minus one. |
| Search.ReportedRange | src/lua/memory/lmemlib.c:158-162 | The reported range stays in the window exactly when the needle is no longer than the window, and then holds the whole needle. |
| Search.ClippedNeedleIsReported | src/lua/memory/lmemlib.c:158-162 | A needle longer than the window that begins with the whole window is reported with an end past the window. |
| Search.PastTheEnd | src/lua/memory/lmemlib.c:158-162 | The needle 7, 8, 9 in the single byte 7 is such a case, reported at positions 1 to 3. |
| Fill.MemFill | src/lua/memory/lmemlib.c:47-54 | Byte k of the target becomes byte k mod length of the source, nothing else changes, and the loop ends (do-while included). |
| Fill.PatternIs | src/lua/memory/lmemlib.c:168-190 | What a fill repeats: a number that is a byte, or the source from its position on; any other number raises an error. |
| Fill.MemFillRange | src/lua/memory/lmemlib.c:168-190 | mem_fill between two Lua positions, with its guards against an empty source and its error for a number that is no byte. |
| Compare.MemDiff | src/lua/memory/lmemlib.c:109-126 | The position is one past the longest common prefix, absent exactly for equal arrays, and the boolean is the lexicographic order of the platform's char. |
| Compare.LessIs | src/lua/memory/lmemlib.c:109-126 | After the longest common prefix, the array that ends there comes first, or the one whose next byte is less, read as a signed or unsigned char. |
| Compare.LessIsTrichotomous | src/lua/memory/lmemlib.c:109-126 | Of two different arrays exactly one comes first, and no array comes before itself. |
| Compare.LessIsTransitive | src/lua/memory/lmemlib.c:109-126 | The order is transitive. |
| RefCells.RefGcKeeps | src/lua/memory/luamem.c:25-34 | Collecting keeps the ownership invariant; the callback it makes frees a live block with its true size. |
| RefCells.SetRefKeeps | src/lua/memory/luamem.c:51-65 | luamem_setref on memory that the reference is not to own, with a client's callback or with NULL, may always free what the reference held, and keeps the invariant. |
| RefCells.SetLooseKeeps | src/lua/memory/luamem.c:51-65 | luamem_setref on a block of the allocator hands it to one owner and frees what the reference held. |
| RefCells.ResizeKeeps | src/lua/memory/lmemlib.c:56-75 | mem_resize passes the allocator the true old size and keeps the invariant, also when it fails. |
| RefCells.StepKeeps | src/lua/memory/luamem.c:42-65 | Every operation on references, luamem_setref with luamem_free, a client callback or NULL included, keeps: each live block has exactly one owner, which knows its size. |
| RefRuns.RunKeeps | src/lua/memory/luamem.c:25-65 | So does every run of create, resize, setref, close and gc steps. |
| RefRuns.StepBalance | src/lua/memory/luamem.c:158-167 | A step gives back only live blocks and is handed only addresses that are not live; nothing else becomes or stops being live. |
| RefRuns.RunBalance | src/lua/memory/luamem.c:158-167 | Over any run and at every address, the times it was handed out less the times it was given back is one if a block is live there and zero if not. |
| RefRuns.CloseThenGc | src/lua/memory/luamem.c:36-40 | Closing and then collecting a reference is the same as closing it. |
| RefRuns.NothingLeaks | src/lua/memory/luamem.c:25-34 | When all references are released, only blocks in the hands of C code are left. |
| RefRuns.AllGivenBack | src/lua/memory/luamem.c:25-65 | From the start of a Lua state: after any run, releasing every reference is possible and leaves the blocks in the hands of C code only; every other address has been given back as often as it was handed out; and C code holds none if it allocated none. |
| RefRuns.ResizeContents | src/lua/memory/lmemlib.c:56-75 | Resizing succeeds exactly on a resizable memory for which the allocator has room, changes one memory only and calls no callback; a failed resize changes nothing. |
| RefRuns.ResizedBytes | src/lua/memory/lmemlib.c:68-72 | Byte by byte: the old bytes up to the smaller size, then the filling over and over, or zeros. |
| RefRuns.StepCells | src/lua/memory/luamem.c:25-65 | What a reference holds after each operation, and that a client hears exactly once, with address and length, of memory of its own that is let go: on release if the length is not 0, on luamem_setref if the address changes. |
| RefRuns.LuaState.NewRefCell | src/lua/memory/luamem.c:42-49 | luamem_newref adds an empty cell. |
| RefRuns.LuaState.CollectRef | src/lua/memory/luamem.c:25-34 | refgc on cell objects meets RefCells.RefGc and keeps the invariant. |
| RefRuns.LuaState.ResetRefCell | src/lua/memory/luamem.c:51-65 | luamem_resetref on cell objects meets RefCells.ResetRef. |
| RefRuns.LuaState.ReallocBlock | src/lua/memory/luamem.c:158-163 | luamem_realloc; its callers are obliged to pass a live block with its true size. |
| RefRuns.LuaState.FillBlock | src/lua/memory/lmemlib.c:68-72 | The fill of mem_resize, by memfill or with zeros, touches the new tail only. |
| RefRuns.LuaState.ResizeRef | src/lua/memory/lmemlib.c:56-75 | mem_resize on cell objects meets RefCells.MemResize and keeps the invariant. |
| RefRuns.LuaState.ResizeCall | src/lua/memory/luamem.c:169-174 | The length check comes first and raises an error that changes nothing. |
| GrowBuffer.NewSizeSuffices | src/lua/memory/luamem.c:274-281 | An error exactly when n + sz cannot be counted; otherwise the new size suffices and is larger, even when doubling wraps around. |
| GrowBuffer.Doubles | src/lua/memory/luamem.c:275-279 | The new size is twice the old one or what is needed, whichever is larger, and just what is needed when doubling wraps around. |
| GrowBuffer.AddSucceeds | src/lua/memory/luamem.c:289-323 | Adding succeeds if there is room, or if the sum can be counted and there is memory; it copies only when it grows. |
| GrowBuffer.Buffer.Realloc | src/lua/memory/luamem.c:216-220 | The allocator, whose callers must pass NULL or an area not yet taken back with its true size. |
| GrowBuffer.CopiesArePaidFor | src/lua/memory/luamem.c:289-323 | Over any sequence of additions in which no capacity that is outgrown reaches 2^63, growth copies at most as many bytes as the capacity has grown by. |
| GrowBuffer.Buffer.ResizeBox | src/lua/memory/luamem.c:216-228 | Passes the allocator the box and its true size; on success the box is a new area with the common prefix and the old area is released once; on an error nothing changes. |
| GrowBuffer.Buffer.BoxGc | src/lua/memory/luamem.c:231-241 | Releases the area of the box; a second call (close, then gc) releases nothing. |
| GrowBuffer.Buffer.PrepBuffSize | src/lua/memory/luamem.c:289-312 | Keeps the bytes used, leaves at least sz free, releases an outgrown box and nothing else, and changes nothing when it raises an error. |
| GrowBuffer.Buffer.AddValue | src/lua/memory/luamem.c:315-323 | Appends the value, or raises an error and leaves the buffer as it was. |
| JsonLaws.LoadAfterSave | include/poesie/JsonSerialize.hpp:141-223 | Whatever follows a saved value, loading gives the value back and leaves exactly what follows; a null leaves the target as it was. |
| JsonLaws.RoundTrip | include/poesie/JsonSerialize.hpp:128-135 | Into a fresh target the value comes back unchanged exactly when each binary in it carries a subtype. |
| JsonLaws.NormalIffTagged | include/poesie/JsonSerialize.hpp:132 | What is lost otherwise is only the absence of a subtype. |
| JsonLaws.PrefixFree | include/poesie/JsonSerialize.hpp:95-139 | No encoding is a prefix of another, and different tagged values have different encodings. |
| JsonLaws.SaveThrows | include/poesie/JsonSerialize.hpp:136-137 | Saving throws exactly when a discarded value occurs inside. |
| JsonLaws.WireFormat | include/poesie/JsonSerialize.hpp:95-139 | The bytes of each kind: its tag, counts and integers in eight bytes, a boolean in one, a binary after its length and its subtype, which is 2^64 - 1 when there is none. |
| JsonLaws.WireElems | include/poesie/JsonSerialize.hpp:115-120 | Elements follow one another. |
| JsonLaws.WireFields | include/poesie/JsonSerialize.hpp:121-127 | Fields follow one another, each as its key with its length and its value. |
| JsonLaws.EmplaceLast | include/poesie/JsonSerialize.hpp:199-205 | Fields that arrive in key order are appended. |
| JsonLaws.KeysCompareAsBytes | include/poesie/JsonSerialize.hpp:121-127 | Object keys are ordered byte by byte as numbers from 0 to 255, a key before its extensions. |
| JsonLaws.EmplaceSorted | include/poesie/JsonSerialize.hpp:199-205 | Fields that arrive in any order leave the keys sorted and distinct. |
| JsonLaws.EmplaceAdds | include/poesie/JsonSerialize.hpp:198-207 | Emplacing adds the field exactly when its key is new, and takes nothing away. |
| JsonLaws.LoadIsGood | include/poesie/JsonSerialize.hpp:141-223 | Any bytes that load at all load to a well-formed value whose binaries are all tagged. |
| JsonLaws.LoadThenSave | include/poesie/JsonSerialize.hpp:141-223 | So whatever was received can be sent on and is received unchanged. |
| JsonLaws.LoadExtends | include/poesie/JsonSerialize.hpp:141-223 | What loads also loads, to the same value, when more bytes follow, and leaves those. |
| JsonLaws.Truncated | include/poesie/JsonSerialize.hpp:141-223 | A saved value cut short anywhere throws, and so does any tag from 9 on. |
| JsonArchive.SaveJSON | include/poesie/JsonSerialize.hpp:95-139 | Appends to the archive exactly the encoding, or the part of it before the exception. |
| JsonArchive.SaveArray | include/poesie/JsonSerialize.hpp:115-120 | The loop over elements. |
| JsonArchive.SaveObject | include/poesie/JsonSerialize.hpp:121-127 | The loop over fields. |
| JsonArchive.LoadJSON | include/poesie/JsonSerialize.hpp:141-223 | Consumes and returns exactly what the specification of loading says, or throws when it does. |
| JsonArchive.LoadSimple | include/poesie/JsonSerialize.hpp:147-181 | The kinds that hold no other values, and the exception for unknown tags. |
| JsonArchive.LoadArray | include/poesie/JsonSerialize.hpp:182-193 | The loop that pushes back elements. |
| JsonArchive.LoadObject | include/poesie/JsonSerialize.hpp:194-207 | The loop that emplaces fields. |
| ViewCodec.DecodeEncode | src/MemoryView.cpp:61-83 | The bytes of a view decode to its intent, owner, bulk, offset and size, whatever follows them. |
| ViewCodec.EncodeDecode | src/MemoryView.cpp:127-161 | Bytes that decode start with the encoding of what they decode to. |
| ViewCodec.LayoutIs | src/MemoryView.cpp:127-161 | Where each field of a view is in its bytes, numbers in eight bytes with the least significant first. |
| ViewCodec.WhatIsAView | src/MemoryView.cpp:163-183 | Exactly which JSON values are recognised: binaries of subtype 2388, and objects with numbers below 256 under bytes and an unsigned subtype that is 2388 modulo 2^32. |
| ViewCodec.Serialize | src/MemoryView.cpp:127-161 | The write cursor ends exactly at the end of the buffer sized beforehand, which then holds the layout. |
| ViewCodec.Deserialize | src/MemoryView.cpp:61-83 | The read cursor recovers the fields, or runs past the bytes exactly when the specification says so. |
| ViewCodec.DumpIsRecognised | src/MemoryView.cpp:163-183 | A binary and its dump carry the same bytes and are recognised alike except when the subtype differs from the code but agrees with it modulo 2^32. |
| ViewCodec.WideSubtypeIsMistaken | src/MemoryView.cpp:175 | Such a subtype, 2^32 + 2388, is taken for a view's in the dump only. |
| ViewCodec.ViewRoundTrip | src/MemoryView.cpp:48-94 | A view with an accepted window is rebuilt from its JSON and from the dump of it. |
| ViewCodec.AcceptedWindow | src/MemoryView.cpp:35-38 | An accepted window lies inside the bulk exactly when offset plus size does not wrap around. |
| ViewCodec.InsideIsAccepted | src/MemoryView.cpp:35-38 | Every window inside the bulk is accepted; without a size, only offset 0 (or one that wraps around). |
| ViewCodec.WrappingWindowIsAccepted | src/MemoryView.cpp:35-36 | A window starting at 2^64 - 1 is accepted on a 16-byte bulk. |
| ViewCodec.WindowIs | src/MemoryView.cpp:29-46 | The constructor throws exactly when offset plus size, modulo 2^64, exceeds the bulk; an absent offset is 0, an absent size that of the bulk. |
| ViewCodec.FromJsonIs | src/MemoryView.cpp:48-94 | Which JSON values the constructor rejects as no view, which for their window, and what view it makes of the others. |
| ArgumentTrip.AtNormal | include/poesie/JsonSerialize.hpp:182-207 | What a path leads to after a trip is what it led to before, up to the subtype of untagged binaries. |
| ArgumentTrip.ViewIsNormal | src/MemoryView.cpp:163-183 | That difference neither makes nor unmakes a view, nor changes its bytes. |
| ArgumentTrip.TripKeepsViews | src/MemoryView.cpp:163-183 | Through saveJSON and loadJSON every path of any value keeps leading to the same view, or to no view. |
| ArgumentTrip.ViewArrives | src/MemoryView.cpp:48-94 | A view placed at any depth of an argument is rebuilt with its own fields on the other side. |
| ArgumentTrip.PathsLead | include/poesie/JsonSerialize.hpp:208-219 | A path leads to the value itself, to elements by number and to fields by key. |
| LazyView.PointerIsFixed | src/MemoryViewImpl.hpp:45-46 | Once set the data pointer never changes: a copy collects writes without touching the bulk, an alias passes them on. |
| LazyView.FirstData | src/MemoryViewImpl.hpp:45-80 | The first call of data() throws exactly when a local bulk cannot be looked up, aliases a local window of one segment, and otherwise makes a buffer that holds the window unless the intent is OUT. |
| LazyView.DataShows | src/MemoryViewImpl.hpp:45-80 | After any run that has called data(), the pointer shows the window of the bulk with the writes made so far, except that an OUT view with its own buffer shows what was in the buffer with the writes. |
| LazyView.Outcome | src/MemoryViewImpl.hpp:36-80 | Every run: an unused view transfers nothing; a copied IN view never changes the bulk; a copied OUT or INOUT view puts exactly its buffer in its window at the end; the last transfer of an alias is harmless exactly when the window equals the start of the bulk. |
| LazyView.AliasIsSafeIff | src/MemoryViewImpl.hpp:36-61 | The last transfer of an aliased view that writes back leaves every bulk as it is, however the view was used, exactly when the view starts at offset 0 or is empty. |
| LazyView.InOutIsTransparent | src/MemoryViewImpl.hpp:36-80 | Copied, or aliased from offset 0 or empty, an INOUT view leaves the bulk with the writes made in its window and nothing else changed. |
| LazyView.OutIsComplete | src/MemoryViewImpl.hpp:65-71 | An OUT view that is written everywhere sends none of its fresh buffer's garbage. |
| LazyView.AliasAtOffsetOverwrites | src/MemoryViewImpl.hpp:40 | An aliased view at offset 1 can change a byte nobody wrote. |
| LazyView.MemoryViewImpl.constructor | src/MemoryViewImpl.hpp:34 | A view starts untouched. |
| LazyView.MemoryViewImpl.PrepareLocalData | src/MemoryViewImpl.hpp:45-80 | Meets LazyView.Step on the object: throws exactly when a first use cannot look up a local bulk, and otherwise sets the pointer once, to show the remote window, or garbage for an OUT view with its own buffer. |
| LazyView.MemoryViewImpl.WriteLocal | src/MemoryView.cpp:114-118 | A write through the pointer changes the buffer or the bulk, as specified. |
| LazyView.MemoryViewImpl.Delete | src/MemoryViewImpl.hpp:36-43 | Leaves the bulk as LazyView.Destroy says, and deletes an owned buffer exactly once. |

## Left out

- LazyView.Destroy: how much the destructor sends for an aliased view follows the reading that a local bulk named without a segment supplies its first bytes; thallium's transfer is not part of the repository; LazyView.AliasIsSafeIff says for which views the reading matters.
- LazyView.MemoryViewImpl.PrepareLocalData: does not model a fetch that fails, after which the buffer, not filled, stays set and owned.
- LazyView.MemoryViewImpl: does not model failed transfers, other processes that write to the bulk meanwhile, or bulks of several segments beyond the report that a window is not contiguous.
- PackCalls.MemPack: values are taken as they are at the call, so a value that is the target memory itself is not modelled.
- PackCalls.MemUnpack: does not model the limit on the number of results (luaL_checkstack).
- RefRuns.LuaState.ResizeRef: a filling that is the memory being resized is not modelled; a filling of a wrong type is an error before the call.
- RefCells.World: contents of client memory, and fixed-size memories owned by the garbage collector, are not modelled.
- JsonArchive.LoadJSON: the half-built target that an exception leaves behind is not modelled.
- ViewCodec.Dumped: only binary values are dumped and parsed in the model; the text of other JSON kinds is left to nlohmann::json.
- ViewCodec.FromJson: reading past the bytes of a malformed view, which is undefined in C++, is one outcome.
- The float formats: a float is its byte image; what the bits mean does not matter here.
- Script-engine backends, client, provider, RPC plumbing and Result: conversions and calls whose behaviour is elsewhere.
- mem_type, mem_len, mem_concat and the set-up of metatables: trivial code.
