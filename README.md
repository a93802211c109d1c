# A verified model of the buffers, path helpers, timer, audio helpers and melody walk

This project models five small pieces of an OpenGL/OpenAL demo code base and proves properties about them in Dafny.

- **`OwningBuffer`** (`owning_buffer.dfy`) models the owning buffers `immutable_array_t<T>` and `aligned_array_t<T>`.
  - Each is a class with a `size` and a nullable `data` pointer, modelled as `array?<T>`.
  - An `Allocator` class, whose fields are ghost, records which blocks are live in the malloc family and in the `_mm_malloc` family.
  - With that record, these become checked statements: allocation frees the old storage, `release_ptr` hands the block to the caller, and the destructor frees exactly what the buffer owns.
  - Allocation failure is a nondeterministic branch inside the allocator.
  - The element type's `T()` and the value of an all-zero element (what `memset` leaves behind) are one constant, `zero`, per buffer.
- **`FileIO`** (`path_utils.dfy`) models the path helpers of `gl/utils.cpp`:
  - both `normalize` overloads, as loops proved against a recursive specification `Norm`;
  - `fname`, `fname_noext`, `fdir` and `fext`, built on a model of `std::string::rfind`.
- **`Timer`** (`timer.dfy`) models `utils::timer::cumulative_timer`.
  - It is a class whose methods update `periods`, `duration` and `timestamp` with explicit unsigned 32-bit and 64-bit wrap-around.
  - Pure functions give the same transitions on a value, and lemmas describe any sequence of start/stop pairs.
  - The clock `ns()` is a parameter `now`.
- **`AudioDevices`** (`audio_devices.dfy`) models two helpers of `synth/main.cpp`:
  - `list_audio_devices`, a two-cursor walk over the double-NUL-terminated device list;
  - `to_al_format`.
- **`Melody`** (`melody.dfy`) models the melody generator of `synth/notes.cpp`:
  - the 87-row chord table `nabornot`;
  - the `min_index`/`max_index` group ranges;
  - the menu validation loop;
  - `random_2`;
  - the random walk of the note index `e`.

  Every value drawn from `random(a, b)` is supplied by the caller.

## Model

| member | source | states |
|---|---|---|
| OwningBuffer.Overwrite | gl/immutable_array.hpp:125-129 | a range fill or range clear keeps the length, sets exactly [base, base+count) to the value and leaves every other element unchanged |
| OwningBuffer.OverwriteAdjacent | gl/immutable_array.hpp:127-128 | filling [b, b+c1) and then [b+c1, b+c1+c2) is filling [b, b+c1+c2), which is why the fill loop can proceed one element at a time |
| OwningBuffer.Allocator.Malloc | gl/immutable_array.hpp:20 | malloc either fails with null and leaves the heap unchanged, or returns a fresh block of n elements that becomes live in the malloc family |
| OwningBuffer.Allocator.AlignedMalloc | gl/immutable_array.hpp:165 | _mm_malloc either fails with null, or returns a fresh block of n elements that becomes live in the aligned family |
| OwningBuffer.Allocator.Free | gl/immutable_array.hpp:70 | free takes only a live malloc block, so a double free cannot verify, and afterwards the block is no longer live |
| OwningBuffer.Allocator.AlignedFree | gl/immutable_array.hpp:215 | _mm_free takes only a live aligned block, and afterwards the block is no longer live |
| OwningBuffer.ConstructEach | gl/immutable_array.hpp:36-37 | the placement-new loop leaves every element equal to the given value |
| OwningBuffer.ImmutableArray.constructor | gl/immutable_array.hpp:14 | default construction gives size 0, a null pointer and operator bool false |
| OwningBuffer.ImmutableArray.WithSize | gl/immutable_array.hpp:16-26 | either allocation fails (null, size 0), or size is n, every element is T(), and the block is the only new live block |
| OwningBuffer.ImmutableArray.WithValue | gl/immutable_array.hpp:28-38 | as WithSize, with every element a copy of the value |
| OwningBuffer.ImmutableArray.Move | gl/immutable_array.hpp:47-53 | the new buffer takes over size and pointer, and the source is left with size 0 and null |
| OwningBuffer.ImmutableArray.MoveAssign | gl/immutable_array.hpp:40-45 | size and pointer are swapped with the other buffer, which is not emptied, and both stay valid |
| OwningBuffer.ImmutableArray.ToBool | gl/immutable_array.hpp:59-60 | true exactly when the pointer is non-null; false implies size 0 and no contents |
| OwningBuffer.ImmutableArray.Allocate | gl/immutable_array.hpp:63-81 | the old block (if any) is freed; then either failure (null, size 0) or n elements of T() in a fresh live block; nothing else in the heap changes |
| OwningBuffer.ImmutableArray.AllocateWith | gl/immutable_array.hpp:84-102 | as Allocate, every new element a copy of the value |
| OwningBuffer.ImmutableArray.Copy | gl/immutable_array.hpp:104-105 | the contents become the first size elements of the source; size and pointer are unchanged |
| OwningBuffer.ImmutableArray.Get | gl/immutable_array.hpp:110-111 | an in-range index reads that element of the contents |
| OwningBuffer.ImmutableArray.Set | gl/immutable_array.hpp:107-108 | writing through operator[] changes exactly that element |
| OwningBuffer.ImmutableArray.Clear | gl/immutable_array.hpp:113-114 | every element becomes the zero value |
| OwningBuffer.ImmutableArray.ClearRange | gl/immutable_array.hpp:116-117 | exactly the range [base, base+count) becomes zero, and everything else is unchanged |
| OwningBuffer.ImmutableArray.Fill | gl/immutable_array.hpp:119-123 | every element becomes the value |
| OwningBuffer.ImmutableArray.FillRange | gl/immutable_array.hpp:125-129 | exactly the range [base, base+count) becomes the value, and everything else is unchanged |
| OwningBuffer.ImmutableArray.ReleasePtr | gl/immutable_array.hpp:131-137 | returns the old pointer, which is still live and holds size elements, and leaves the buffer empty with a null pointer |
| OwningBuffer.ImmutableArray.Destroy | gl/immutable_array.hpp:142-151 | frees the block when the pointer is non-null and leaves the heap otherwise unchanged |
| OwningBuffer.AlignedArray.constructor | gl/immutable_array.hpp:159 | default construction gives size 0, a null pointer and operator bool false |
| OwningBuffer.AlignedArray.WithSize | gl/immutable_array.hpp:161-171 | either allocation fails (null, size 0), or size is n, every element is T(), and the block is live in the aligned family |
| OwningBuffer.AlignedArray.WithValue | gl/immutable_array.hpp:173-183 | as WithSize, with every element a copy of the value |
| OwningBuffer.AlignedArray.Move | gl/immutable_array.hpp:192-198 | takes over size and pointer, and the source is left empty |
| OwningBuffer.AlignedArray.MoveAssign | gl/immutable_array.hpp:185-190 | swaps size and pointer with the other buffer |
| OwningBuffer.AlignedArray.ToBool | gl/immutable_array.hpp:204-205 | true exactly when the pointer is non-null; false implies an empty buffer |
| OwningBuffer.AlignedArray.Allocate | gl/immutable_array.hpp:208-226 | _mm_free of the old block, then failure or n elements of T() in a fresh aligned block |
| OwningBuffer.AlignedArray.AllocateWith | gl/immutable_array.hpp:229-247 | as Allocate, every new element a copy of the value |
| OwningBuffer.AlignedArray.Copy | gl/immutable_array.hpp:249-250 | the contents become the first size elements of the source |
| OwningBuffer.AlignedArray.Get | gl/immutable_array.hpp:255-256 | an in-range index reads that element |
| OwningBuffer.AlignedArray.Set | gl/immutable_array.hpp:252-253 | changes exactly the indexed element |
| OwningBuffer.AlignedArray.Clear | gl/immutable_array.hpp:258-259 | every element becomes zero |
| OwningBuffer.AlignedArray.ClearRange | gl/immutable_array.hpp:261-262 | exactly the range becomes zero |
| OwningBuffer.AlignedArray.Fill | gl/immutable_array.hpp:264-268 | every element becomes the value |
| OwningBuffer.AlignedArray.FillRange | gl/immutable_array.hpp:270-274 | exactly the range becomes the value, and the rest is unchanged |
| OwningBuffer.AlignedArray.ReleasePtr | gl/immutable_array.hpp:276-282 | returns the still-live old pointer and empties the buffer |
| OwningBuffer.AlignedArray.Destroy | gl/immutable_array.hpp:287-296 | _mm_free of the block when the pointer is non-null |
| FileIO.Normalize | gl/utils.cpp:101-122 | the one-pass scan with a last-was-separator flag computes Norm(path) |
| FileIO.NormalizeCString | gl/utils.cpp:77-97 | the scan up to the terminating NUL computes Norm of the C string at the front of memory |
| FileIO.ScanStep | gl/utils.cpp:106-120 | reading one character (emit it, emit one `/` for the first separator of a run, or emit nothing) keeps the scan invariant |
| FileIO.ScanDone | gl/utils.cpp:121 | at the end of the input the scan's output is the normalized path |
| FileIO.CString | gl/utils.cpp:82 | the string a `const char*` denotes: the prefix before the first NUL, which itself contains no NUL |
| FileIO.CStringOfTerminated | gl/utils.cpp:82 | a NUL-free string followed by NUL reads back as itself, whatever follows |
| FileIO.OverloadsAgree | gl/utils.cpp:77-122 | both overloads compute the same result on the same characters |
| FileIO.Norm | gl/utils.cpp:99-122 | the normalized path, defined by one-character lookahead independently of the scan; it is never longer than the path and is empty exactly when the path is empty |
| FileIO.NormIsNormal | gl/utils.cpp:99-100 | the result contains no `\` and no two consecutive `/` |
| FileIO.NormHead | gl/utils.cpp:109-118 | the result starts with `/` when the path starts with a separator, and with the path's first character otherwise |
| FileIO.NormKeepsNonSeparators | gl/utils.cpp:115-119 | every character that is not a separator is kept, in order |
| FileIO.NormOfNormal | gl/utils.cpp:99-100 | a path without `\` and without `//` is returned unchanged |
| FileIO.NormFixpoints | gl/utils.cpp:99-100 | a path is its own normal form exactly when it has no `\` and no `//` |
| FileIO.NormIdempotent | gl/utils.cpp:101-122 | normalizing twice is normalizing once |
| FileIO.NormAppend | gl/utils.cpp:101-122 | normalization splits at a boundary whose left side does not end in a separator |
| FileIO.NormSeparatorRun | gl/utils.cpp:109-114 | a run of separators followed by a non-separator or by the end becomes one `/` |
| FileIO.MaximalRunCollapses | gl/utils.cpp:99-100 | each maximal separator run between two stretches of non-separators is replaced by exactly one `/` |
| FileIO.RFind | gl/utils.cpp:128 | rfind returns None exactly when the character is absent; otherwise an index holding it, with none after |
| FileIO.RFindUnique | gl/utils.cpp:135 | an occurrence with no later occurrence is the one rfind reports |
| FileIO.DirNameSplit | gl/utils.cpp:142-150 | fdir, a `/` and fname reassemble the normalized path; without a `/`, fdir is empty and fname is the whole path (npos + 1 wraps to 0) |
| FileIO.StemExtensionSplit | gl/utils.cpp:132-139 | fname_noext, a `.` and fext reassemble the normalized path; without a `.`, fname_noext is the whole path and fext is empty |
| FileIO.Fname | gl/utils.cpp:125-129 | fname contains no `/` and is a suffix of the normalized path |
| FileIO.FnameNoext | gl/utils.cpp:132-139 | fname_noext is a prefix of the whole normalized path, directory part included, and is shorter than it exactly when the path has a `.` |
| FileIO.FnameNoextKeepsDirectory | gl/utils.cpp:132-139 | fname_noext keeps the directory part: "d/x.txt" gives "d/x" |
| FileIO.FnameNoextCutsDirectory | gl/utils.cpp:132-139 | when the last `.` is in a directory name, fname_noext cuts there: "a.b/c" gives "a" |
| FileIO.Fdir | gl/utils.cpp:142-150 | fdir is a prefix of the normalized path: empty when it has no `/`, otherwise everything before its last `/` |
| FileIO.Fext | gl/utils.cpp:153-161 | fext contains no `.` and is a suffix of the normalized path |
| FileIO.FdirIsNormal | gl/utils.cpp:142-150 | fdir is already normal, so normalizing it again changes nothing |
| FileIO.FextCrossesDirectory | gl/utils.cpp:153-161 | as written, fext("a.b/c") is "b/c", which contains a `/` |
| FileIO.FileExtension | gl/utils.cpp:153-161 | the extension taken from the file name contains neither `/` nor `.` |
| FileIO.ExtPartAt | gl/utils.cpp:158-160 | the extension is exactly the text after the last `.` |
| FileIO.ExtPartOfNamePart | gl/utils.cpp:153-161 | the extension of the name part equals the extension of the whole path when the latter contains no `/` |
| FileIO.FileExtensionAgrees | gl/utils.cpp:153-161 | the corrected extension agrees with fext whenever fext's result stays inside the file name |
| Timer.AfterReset | src/utils.hpp:64-68 | reset zeroes periods and duration and keeps the timestamp |
| Timer.AfterStart | src/utils.hpp:70-74 | start increments periods modulo 2^32, records the clock reading and keeps the duration |
| Timer.AfterStop | src/utils.hpp:76-80 | stop adds (now - timestamp) mod 2^64 to duration, modulo 2^64, and keeps periods and timestamp |
| Timer.MeasureWraps | src/utils.hpp:70-80 | after n start/stop pairs, periods grew by n modulo 2^32, duration grew by the sum of the wrapped differences modulo 2^64, and timestamp is the last start's reading |
| Timer.ForwardLengths | src/utils.hpp:79 | when no interval runs backwards, each wrapped difference is the true length |
| Timer.MeasureFromReset | src/utils.hpp:61-80 | from a reset timer, forward intervals that do not overflow give periods equal to their number and duration equal to their total length |
| Timer.CumulativeTimer.constructor | src/utils.hpp:61-62 | construction resets periods and duration to 0 |
| Timer.CumulativeTimer.Reset | src/utils.hpp:64-68 | the object's new state is AfterReset of its old state |
| Timer.CumulativeTimer.Start | src/utils.hpp:70-74 | the object's new state is AfterStart of its old state and the clock reading |
| Timer.CumulativeTimer.Stop | src/utils.hpp:76-80 | the object's new state is AfterStop of its old state and the clock reading |
| AudioDevices.StrLen | synth/main.cpp:37 | strlen is the distance to the first NUL: NUL there, none before |
| AudioDevices.StrLenIs | synth/main.cpp:37 | any NUL with none before it is the one strlen finds |
| AudioDevices.NameAt | synth/main.cpp:38 | name k sits at its offset in the list and is followed by its NUL |
| AudioDevices.StrLenOfName | synth/main.cpp:37 | in a well-formed list, strlen at name k's offset is the length of name k, and those bytes are the name |
| AudioDevices.NextName | synth/main.cpp:37-38 | after name k, device moves to name k+1 or to the NUL that ends the list |
| AudioDevices.ListScanStep | synth/main.cpp:34-40 | one iteration prints name k and keeps device on the next name, with next exactly k+1 bytes further than one past it |
| AudioDevices.ListScanDone | synth/main.cpp:34 | when either cursor reads NUL, the printed names are exactly those StopsAfter describes |
| AudioDevices.ListAudioDevices | synth/main.cpp:26-42 | a null list prints nothing; otherwise the printed names are a prefix of the device list, ending where the first lookahead NUL (or the list's end) says |
| AudioDevices.ShortNameStopsScan | synth/main.cpp:34-39 | a name whose length is its position plus one makes the lookahead land on its NUL, so it and every later name go unprinted |
| AudioDevices.LookaheadInsideName | synth/main.cpp:39 | for a name longer than its position plus one, the lookahead reads a byte inside that name |
| AudioDevices.LongNamesAllPrinted | synth/main.cpp:34-39 | when every name k is longer than k+1 bytes, every name is printed |
| AudioDevices.StopIsUnique | synth/main.cpp:34 | the number of printed names is determined by the memory |
| AudioDevices.EmptyListPrintsNothing | synth/main.cpp:34 | an empty list prints nothing |
| AudioDevices.OneCharacterListIsWellFormed | synth/main.cpp:168 | the memory "A\0\0" is a well-formed list of the single device "A" |
| AudioDevices.OneCharacterFirstNameDropped | synth/main.cpp:28-34 | for the list "A\0\0" the scan prints nothing |
| AudioDevices.LookaheadPastList | synth/main.cpp:29-39 | for the 8-byte list of "AB", "C" and "D" the lookahead for "D" reads the byte after the list; with `x` there all three names are printed, with NUL there only two |
| AudioDevices.ListAllAudioDevices | synth/main.cpp:26-42 | walking device by device until the empty name prints exactly all device names |
| AudioDevices.ToAlFormat | synth/main.cpp:54-59 | no format (-1) exactly when samples is neither 8 nor 16; otherwise the format's sample width is samples, and it is stereo exactly when channels > 1 |
| Melody.PitchRowEntries | synth/notes.cpp:140-233 | every entry of a chord set lies in 0..11, and the entries are strictly increasing |
| Melody.AllPitchRowsAppend | synth/notes.cpp:140-233 | concatenating lists of chord sets gives a list of chord sets |
| Melody.ChordTableShape | synth/notes.cpp:140-235 | the table has 87 rows (KOLICHESTVO_NABOROFF_NOT); every row has six entries, starts with 0, is strictly increasing and ends at most at 11 |
| Melody.ChordTableEntry | synth/notes.cpp:436 | every nabornot[r][n] with r a row and n in 0..5 is a pitch class in 0..11 |
| Melody.IndexRangesSelectGroups | synth/notes.cpp:274-275 | range g of min_index/max_index holds exactly group g of the table (mix, minmin, majmaj, durmol, durdur, molmol), in order |
| Melody.GroupOf | synth/notes.cpp:274-275 | every row 0..86 lies in exactly one of the six ranges |
| Melody.IndexRangesTile | synth/notes.cpp:274-275 | the ranges are non-empty and contiguous, starting at row 0 and ending at row 86 |
| Melody.ReadChordSetChoice | synth/notes.cpp:341-351 | the validation loop returns the first answer in 1..6, having rejected every answer before it |
| Melody.DrawnRowIsValid | synth/notes.cpp:417 | a row drawn from the range of a valid menu answer is a row of the table and a chord set |
| Melody.SumBound | synth/notes.cpp:286-289 | n draws of -1, 0 or 1 sum to a value in [-n, n] |
| Melody.Random2 | synth/notes.cpp:283-293 | random_2(a) is the absolute value of the sum of its a draws, and lies in [0, max(a, 0)] |
| Melody.Reach | synth/notes.cpp:439 | max(17 - e, e) is at least the distance to either end of 0..17, and for e in 0..17 at most 17 |
| Melody.StepLength | synth/notes.cpp:440 | the drawn step length is at most max(17 - e, e) |
| Melody.Step | synth/notes.cpp:441-445 | the step moves l in the drawn direction when that stays in 0..17, and l the other way otherwise; the result is always in 0..17 |
| Melody.NoteAt | synth/notes.cpp:434-436 | index e in 0..17 selects octave i + e/6 in [i, i+2] and degree e%6 in 0..5, and that degree's entry of the row is a pitch class |
| Melody.Walk | synth/notes.cpp:419-447 | starting from e in [6, 11], every index of the walk lies in 0..17, each note is NoteAt of its index, and each next index is Step of the previous one |

## Left out

- Element destructors (`data[i].~T()`, gl/immutable_array.hpp:68-69, 146-147) are not modelled. The buffers hold trivially destructible element types.
- `operator T*` (gl/immutable_array.hpp:139-140, 284-285) is not modelled: the `data` field plays its role.
- The byte count `size * sizeof(T)` passed to malloc can wrap for very large sizes. The model's allocator returns exactly the requested number of elements.
- The alignment passed to `_mm_malloc` must be a power of two. It is accepted but not checked, and it does not affect the model.
- OwningBuffer.ImmutableArray.ClearRange, FillRange, Get, Set and Copy require the index range (for Copy, the `size` elements read from `src`) to lie inside the buffer, because the source does not check it and an access outside it is undefined behaviour. The same holds for the AlignedArray members.
- OwningBuffer.ImmutableArray.Clear: `memset` to zero bytes is modelled as writing the buffer's `zero` value, which is exact only for types whose all-zero bytes are `T()`. The same holds for the AlignedArray clears.
- `cumulative_timer::total_duration` and `average_duration` (src/utils.hpp:82-86) are floating point and are not modelled. The clock `ns()` is a parameter.
- Timer.CumulativeTimer.constructor: the constructor leaves `timestamp` uninitialised, and the model states nothing about it.
- AudioDevices.ListAudioDevices requires `LookaheadReadable`: every byte the second cursor `next` inspects lies in memory. The source does not ensure this: the cursor can read past the list's final NUL (synth/main.cpp:34, 39), and then that byte, outside the list, decides whether the name it looks into is printed (AudioDevices.LookaheadPastList). The model does not describe reads outside memory.
- The output of `list_audio_devices` (the header lines and `fprintf`) is modelled as the sequence of names it prints.
- `to_al_format` returns OpenAL enumeration values. They are modelled as the constructors of `AlFormat`, with `-1` as `NoFormat`.
- `frequency` (synth/notes.cpp:13-16) uses a floating-point `pow` and is not modelled. A note is modelled by its octave, its degree and its pitch class.
- The note durations are floating point and are not modelled: `dliniinot`, `ispdlinot`, `sk`, `sd`, `d`, `h`, `t`, and the syncopation option. The number of notes in a melody is the number of step draws given to `Walk`.
- The WAV writer, console I/O, the other interactive inputs (`t`, `i`, `f`, `j`, `s`) and the `goto` restarts are not modelled.
- The generator's own random draws are not modelled: `std::random_device`, `std::mt19937` and `uniform_int_distribution`. Each value drawn is a parameter, and the unused draw `g` is omitted.
- The octave `i + e / 6` is computed on unbounded integers: a 32-bit overflow of `int` for extreme `i` is not modelled.
- Melody.Walk takes at least 17 unit draws per step and uses only the first `max(17 - e, e)` of them, as `random_2` would draw.
- Melody.ReadChordSetChoice requires the input to contain a valid answer. Otherwise the source asks forever, which is a run the model does not describe.
- The generator of the chord table (`process_array`, synth/notes.cpp:236-258) is commented out in the source. The table's shape is proved about the data itself.
- The OpenGL, GLFW, ImGui and OpenAL calls in these files, and the rest of the repository, are not part of this model.

## Findings

| source | as written | input that shows it | evidently intended | confidence | as-written member | corrected member |
|---|---|---|---|---|---|---|
| synth/main.cpp:29-39 | `next` starts one byte after `device` and then moves `len + 2` per name while `device` moves `len + 1`, so it drifts one byte further into each name, and the loop stops when it reads a NUL | the list "A\0\0" of one device "A": `next` lands on the NUL after "A" and nothing is printed; in general a name of length k + 1 at position k stops the listing | print every device name up to the empty name that ends the list | medium, not executed | AudioDevices.OneCharacterFirstNameDropped | AudioDevices.ListAllAudioDevices |
| synth/main.cpp:34-39 | the test `*next != '\0'` reads through `next`, which drifts one byte further per name and can pass the NUL that ends the list | the names "AB", "C", "D" in the 8 bytes "AB\0C\0D\0\0": the lookahead for "D" is byte 8, past the list, and "D" is printed exactly when that byte is not NUL | read only the list: stop at the empty name that ends it | medium, not executed | AudioDevices.LookaheadPastList | AudioDevices.ListAllAudioDevices |
| gl/utils.cpp:153-161 | `fext` takes the text after the last `.` of the whole normalized path | "a.b/c" gives "b/c", an extension containing a directory separator | the extension of the file name, which is empty for "a.b/c" | medium, not executed | FileIO.FextCrossesDirectory | FileIO.FileExtension |
