# iceoryx-in-rust: alignment arithmetic, control-message layout and the Win32 port-name table

This project models three self-contained pieces of sequential logic from the
elkodon crates (iceoryx in Rust) and proves properties of them in Dafny.

- **`Math`** (`math.dfy`) covers `elkodon_bb_elementary::math`.
  - `align` rounds a size up to a multiple of an alignment.
  - `align_to` does the same with the alignment of a type.
  - `log2_of_power_of_2` is a shifting loop. Here it is a method with a
    `for` loop, proved against `FloorLog2`, the position of the highest set
    bit.
  - `round_to_pow2` is the bit-smearing trick. Here it is a step-by-step
    method on `bv64`, proved to return the least power of two that is at
    least its input.
- **`Cmsg`** (`cmsg.dfy`) covers the ancillary-data macros of the macOS layer
  of elkodon_pal: `CMSG_ALIGN`, `CMSG_SPACE`, `CMSG_SPACE_NON_CONST`,
  `CMSG_LEN`, `CMSG_DATA`, `CMSG_FIRSTHDR` and `CMSG_NXTHDR`.
  - These are the `<sys/socket.h>` macros of section 4.3 of RFC 2292.
  - Addresses and lengths are naturals.
  - The word size `w` (a power of two) and the header size `h` are
    parameters.
  - The `cmsg_len` field stored at an address is read through a function
    `cmsgLen`.
  - `Headers` is the sequence of headers that the usual `CMSG_FIRSTHDR` /
    `CMSG_NXTHDR` loop visits. It is proved to stay inside the control buffer
    and to advance strictly.
- **`PortToUdsName`** (`port_to_uds_name.dfy`) covers the Windows table that
  maps a UDP port to the name of the Unix-domain socket standing in for it.
  - `Entry` is a value holding the ABA counter and two 108-byte slots.
  - `PortToUdsNameMap` is a class with the initialisation marker and an array
    of 65535 entries, with the methods `initialize`, `set`, `get` and
    `get_port`.
  - `PortToUds` is a handle on a table. It offers `set`, `get_port` and
    `reset`, and it opens either a fresh table or an existing one.
  - The proved properties are:
    - the round trip: `get` returns the set name padded with zeros;
    - the frame: `set` and `reset` touch one port only;
    - the lookup rule: `get_port` returns the first port whose stored name,
      up to its first zero byte, is a non-empty prefix of the query, and 0
      when there is none.
  - The two tests of the file are modelled as methods whose assertions follow
    from the contracts: `SetAndGetWorks`, `SetAndGetPortWorks` and
    `SetAndGetWorksWithMultipleInstances`.

`Wrappers` (`wrappers.dfy`) holds the `Option` type used for null pointers and
for `position`.

## Model

| member | source | states |
|---|---|---|
| Math.Align | elkodon_bb/elementary/src/math.rs:4-10 | the result is a multiple of the alignment, lies in `[value, value + alignment)`, equals `value` exactly when `value` is already aligned, and fits in a `usize`; `alignment > 0` and no overflow of `value + alignment` are required |
| Math.AlignIsLeastMultiple | elkodon_bb/elementary/src/math.rs:3-10 | `align` is the least multiple of the alignment that is at least `value` |
| Math.AlignTo | elkodon_bb/elementary/src/math.rs:13-15 | `align_to` is `align` with the type's alignment, a power of two, and so is aligned and within one alignment above `value` |
| Math.AlignExamples | elkodon_bb/elementary/tests/math_tests.rs:4-12 | `align(25, 5) == 25` and `align(30, 7) == 35` |
| Math.FloorLog2 | elkodon_bb/elementary/src/math.rs:17-30 | the exponent `k` with `2^k <= v < 2^(k+1)`: the value `log2_of_power_of_2` must return |
| Math.FloorLog2Unique | elkodon_bb/elementary/src/math.rs:17-30 | that exponent is unique, so any bracketing exponent is `FloorLog2` |
| Math.FloorLog2OfPow2 | elkodon_bb/elementary/tests/math_tests.rs:14-20 | the log of `2^i` is `i`, for every `i` |
| Math.Log2OfPowerOf2 | elkodon_bb/elementary/src/math.rs:18-30 | the result is below 64; it is 0 for input 0; for a non-zero input it is the position of the highest set bit, hence `i` for `2^i` |
| Math.RoundToPow2 | elkodon_bb/elementary/src/math.rs:32-43 | for `1 <= value <= 2^63` the result is a power of two, at least `value`, and its half is below `value`: the least such power |
| Math.Smear | elkodon_bb/elementary/src/math.rs:34-39 | the OR-shift cascade keeps every set bit of its input and leaves no clear bit below a set bit |
| Math.RoundToPow2Examples | elkodon_bb/elementary/tests/math_tests.rs:22-31 | `round_to_pow2` of 1, 2, 3, 4, 5, 6 and 8589934597 is 1, 2, 4, 4, 8, 8 and 17179869184 |
| Math.Log2OfPowerOf2Examples | elkodon_bb/elementary/tests/math_tests.rs:14-20 | `log2_of_power_of_2(0)` is 0 and `log2_of_power_of_2(2^i)` is `i` for each `i` in `0..64` |
| Math.SmearOfPow2 | elkodon_bb/elementary/tests/math_tests.rs:23-31 | `round_to_pow2` returns a power of two unchanged |
| Cmsg.ClearLowBits | elkodon_pal/posix/src/macos/select.rs:17 | `x & !(w - 1)` for a power of two `w` is `x` rounded down to a multiple of `w` |
| Cmsg.CmsgAlign | elkodon_pal/posix/src/macos/select.rs:16-18 | `CMSG_ALIGN(len)` is a multiple of the word size in `[len, len + w)` |
| Cmsg.CmsgAlignFixesAligned | elkodon_pal/posix/src/macos/select.rs:16-18 | `CMSG_ALIGN` leaves a length unchanged exactly when it is already aligned |
| Cmsg.CmsgAlignIdempotent | elkodon_pal/posix/src/macos/select.rs:16-18 | `CMSG_ALIGN(CMSG_ALIGN(len)) == CMSG_ALIGN(len)` |
| Cmsg.CmsgAlignIsAlign | elkodon_pal/posix/src/macos/select.rs:16-18 | the bit-mask rounding of `CMSG_ALIGN` agrees with the remainder-based `align` of math.rs |
| Cmsg.CmsgSpace | elkodon_pal/posix/src/macos/select.rs:20-22 | the result fits in a `uint`; when the cast truncates nothing it is the padded data length plus the padded header length, word-aligned, and within two words above `h + length` |
| Cmsg.CmsgSpaceTruncates | elkodon_pal/posix/src/macos/select.rs:20-22 | the `as uint` cast wraps: with 8-byte words and a 16-byte header, `CMSG_SPACE(0xFFFF_FFFF)` is 16, less than the data length |
| Cmsg.CmsgSpaceNonConst | elkodon_pal/posix/src/macos/select.rs:24-26 | `CMSG_SPACE_NON_CONST` returns the same value as `CMSG_SPACE` |
| Cmsg.CmsgLen | elkodon_pal/posix/src/macos/select.rs:56-58 | `CMSG_LEN(length)` is the padded header length plus `length`, within one word above `h + length`; the `uint` sum must not overflow |
| Cmsg.CmsgLenWithinSpace | elkodon_pal/posix/src/macos/select.rs:56-58 | `CMSG_LEN(length) <= CMSG_SPACE(length) < CMSG_LEN(length) + w` |
| Cmsg.CmsgData | elkodon_pal/posix/src/macos/select.rs:60-62 | the data starts less than a word past the fixed header, at offset `CMSG_LEN(0)` from the header |
| Cmsg.CmsgFirstHdr | elkodon_pal/posix/src/macos/select.rs:28-33 | null exactly when `msg_controllen < h`, otherwise `msg_control`, with room for one header |
| Cmsg.HeaderFits | elkodon_pal/posix/src/macos/select.rs:45-51 | the two bounds checks of `CMSG_NXTHDR`; a header passing them starts inside the buffer and its unpadded `cmsg_len` also ends inside it |
| Cmsg.CmsgNxtHdr | elkodon_pal/posix/src/macos/select.rs:35-54 | null when `cmsg_len < h`; non-null exactly when the candidate `cur + CMSG_ALIGN(cmsg_len)` fits in the buffer with its fixed part and its padded length; a non-null result is that candidate, strictly after `cur` |
| Cmsg.HeadersFrom | elkodon_pal/posix/src/macos/select.rs:35-54 | the walk of `CMSG_NXTHDR` from a header ends where the macro returns null; every later header fits in the buffer, and each step moves strictly forward by the padded length |
| Cmsg.Headers | elkodon_pal/posix/src/macos/select.rs:28-54 | the whole `CMSG_FIRSTHDR` / `CMSG_NXTHDR` walk is empty exactly when the buffer cannot hold a header, stays inside the buffer, and is strictly increasing with padded-length steps |
| PortToUdsName.Padded | elkodon_pal/posix/src/windows/win32_udp_port_to_uds_name.rs:39-40 | a zeroed 108-byte slot with the name copied to its front: the name, then zeros |
| PortToUdsName.Entry.Initialized | elkodon_pal/posix/src/windows/win32_udp_port_to_uds_name.rs:28-34 | counter 1 and both slots zeroed, so the entry reads back as 108 zeros |
| PortToUdsName.Entry.Set | elkodon_pal/posix/src/windows/win32_udp_port_to_uds_name.rs:36-43 | the counter grows by exactly one, `get` then returns the padded name, and the other slot keeps the name `get` returned before |
| PortToUdsName.Entry.Get | elkodon_pal/posix/src/windows/win32_udp_port_to_uds_name.rs:45-56 | returns the slot `(counter - 1) % 2`, a full 108-byte slot |
| PortToUdsName.FirstZero | elkodon_pal/posix/src/windows/win32_udp_port_to_uds_name.rs:97 | `position` of a zero byte: the index of the first zero byte, or none when there is no zero byte |
| PortToUdsName.Matches | elkodon_pal/posix/src/windows/win32_udp_port_to_uds_name.rs:97-102 | the per-entry test of `get_port`; a matching entry and the query are non-empty and start with the same non-zero byte |
| PortToUdsName.PaddedMatches | elkodon_pal/posix/src/windows/win32_udp_port_to_uds_name.rs:94-107 | a stored name without zero bytes is found by a query exactly when it is non-empty, shorter than 108 bytes and a prefix of the query |
| PortToUdsName.MatchIsPrefix | elkodon_pal/posix/src/windows/win32_udp_port_to_uds_name.rs:97-104 | a matching entry's name up to its terminator is a non-empty prefix of the query |
| PortToUdsName.LeadingZeroNeverMatches | elkodon_pal/posix/src/windows/win32_udp_port_to_uds_name.rs:97-100 | an entry starting with a zero byte, such as a reset one, is never matched |
| PortToUdsName.FullSlotNeverMatches | elkodon_pal/posix/src/windows/win32_udp_port_to_uds_name.rs:97-100 | an entry with no zero byte is never matched, because `unwrap_or(0)` gives it length 0 |
| PortToUdsName.EmptyNameNeverMatches | elkodon_pal/posix/src/windows/win32_udp_port_to_uds_name.rs:97-100 | the empty query matches no entry |
| PortToUdsName.PortToUdsNameMap.constructor | elkodon_pal/posix/src/windows/win32_udp_port_to_uds_name.rs:59-63 | a fresh mapping: 65535 zero-filled entries and a zero marker |
| PortToUdsName.PortToUdsNameMap.Initialize | elkodon_pal/posix/src/windows/win32_udp_port_to_uds_name.rs:66-84 | every entry becomes `Entry::initialize`'s entry, so every port reads back as zeros, and the marker is `IS_INITIALIZED` |
| PortToUdsName.PortToUdsNameMap.Set | elkodon_pal/posix/src/windows/win32_udp_port_to_uds_name.rs:86-88 | the port's entry is `Entry::set` of the old one, the port reads back the padded name, and no other entry changes |
| PortToUdsName.PortToUdsNameMap.Get | elkodon_pal/posix/src/windows/win32_udp_port_to_uds_name.rs:90-92 | returns the port's current 108-byte name |
| PortToUdsName.PortToUdsNameMap.GetPort | elkodon_pal/posix/src/windows/win32_udp_port_to_uds_name.rs:94-107 | the result is a port whose entry matches and before which none matches, or 0 when no entry matches |
| PortToUdsName.PortToUds.constructor | elkodon_pal/posix/src/windows/win32_udp_port_to_uds_name.rs:129-169 | the creating process gets a new, initialised table on which every port reads back as zeros |
| PortToUdsName.PortToUds.Open | elkodon_pal/posix/src/windows/win32_udp_port_to_uds_name.rs:129-169 | a process that finds the mapping already created views the same table and does not initialise it again, so every name stays as it was |
| PortToUdsName.PortToUds.Set | elkodon_pal/posix/src/windows/win32_udp_port_to_uds_name.rs:171-173 | the port reads back the padded name; no other entry or name changes |
| PortToUdsName.PortToUds.GetPort | elkodon_pal/posix/src/windows/win32_udp_port_to_uds_name.rs:175-177 | the first matching port, or 0 when none matches |
| PortToUdsName.PortToUds.Reset | elkodon_pal/posix/src/windows/win32_udp_port_to_uds_name.rs:179-181 | the port reads back as 108 zeros and no other entry changes |
| PortToUdsName.FirstMatchIsAnswer | elkodon_pal/posix/src/windows/win32_udp_port_to_uds_name.rs:94-107 | the contract of `get_port` determines its answer: the first matching port |
| PortToUdsName.SetThreeNames | elkodon_pal/posix/src/windows/win32_udp_port_to_uds_name.rs:192-196 | after the test's three `set` calls, each of the three ports reads back its padded name and every other port reads zeros |
| PortToUdsName.ReadBackThreeNames | elkodon_pal/posix/src/windows/win32_udp_port_to_uds_name.rs:198-202 | after the three `set` calls, `get` of each port starts with the name set on it, for any three names |
| PortToUdsName.SetAndGetWorks | elkodon_pal/posix/src/windows/win32_udp_port_to_uds_name.rs:190-202 | `get(12345)`, `get(54321)` and `get(819)` start with "hello world", "some other test" and "fuuu" |
| PortToUdsName.LookUpSetName | elkodon_pal/posix/src/windows/win32_udp_port_to_uds_name.rs:204-206 | a query whose first match in that table is the name set on port p gets the answer p |
| PortToUdsName.LookUpUnknownNames | elkodon_pal/posix/src/windows/win32_udp_port_to_uds_name.rs:207-208 | the empty query, and a query no stored name is a prefix of, get the answer 0 |
| PortToUdsName.SetAndGetPortWorks | elkodon_pal/posix/src/windows/win32_udp_port_to_uds_name.rs:204-208 | `get_port` of "hello world", "some other test", "fuuu", "" and "x" gives 12345, 54321, 819, 0 and 0 |
| PortToUdsName.SetAndGetWorksWithMultipleInstances | elkodon_pal/posix/src/windows/win32_udp_port_to_uds_name.rs:211-244 | through a second handle on the same table, names set by either handle are read by the other, and the port it resets reads as zeros |

## Left out

- The Win32 side of `PortToUds::new` and `Drop` is left out: `CreateFileMappingA`, `MapViewOfFile`, `VirtualAlloc`, `UnmapViewOfFile` and `CloseHandle`. Their failure paths, which return `None`, are left out with them. Whether the mapping already existed becomes the choice between the constructor and `Open`.
- Cross-process concurrency is left out: the `compare_exchange` race in `initialize` and its spin-wait (lines 67-83), and the retry loop of `Entry::get` (lines 48-53). The model is sequential, so `get` reads once and `initialize` always takes the successful branch.
- The retry loop of `Entry::get` compares against a `current` loaded once before the loop, so under a concurrent `set` it would never see the counter it waits for. This is concurrent behaviour and is not modelled.
- The atomics' memory orderings are left out.
- An `Entry` is a value in the table's array: `set` replaces the port's entry rather than writing the slot in place through an `UnsafeCell`.
- PortToUdsName.Entry.Set: the ABA counter is an unbounded natural, so the wrap-around of the `u64` counter after 2^64 writes is not modelled.
- The tests in the file call `PortToUds::get`, which the file does not define. The test models read through `PortToUdsNameMap::get` on the handle's table instead.
- Port 65535 is a valid `u16` but has no entry in the 65535-entry table; indexing would panic. `set`, `get` and `reset` therefore require `port < 65535`, and `get_port` can never return it.
- A name of exactly 108 bytes can be stored but is never found by `get_port`, because it has no terminator (`FullSlotNeverMatches`). This is modelled as written.
- `get_port` answers 0 both when port 0 matches and when nothing matches. This is modelled as written.
- Only part of the second test, `..._with_multiple_instances`, is modelled: the sharing through a second handle, the reads across handles and the reset. Its `get_port` checks on seven names are not modelled.
- Cmsg: addresses and lengths are naturals. The `usize` overflow of `len + w - 1` in `CMSG_ALIGN`, and of the address sums in `CMSG_DATA` and `CMSG_NXTHDR`, is not modelled. The `as uint` truncation of `CMSG_SPACE` is modelled (`CmsgSpaceTruncates`); the overflow of the `uint` addition of `CMSG_LEN` is excluded by a precondition.
- Cmsg.CmsgLen: lengths above `2^32 - 1 - CMSG_ALIGN(h)` are excluded by the precondition. There the `uint` addition overflows, which panics in a debug build and wraps in a release build.
- Math.Align: values for which `value + alignment` overflows a `usize` (and which are not already aligned) are excluded by the precondition, as is `alignment == 0`. Division by zero panics in every build; the addition overflow panics in a debug build and wraps in a release build.
- Cmsg.CmsgNxtHdr: the `cmsg_len` field is read through a function of the address, so the model does not capture memory outside the buffer or memory that changes between calls.
- `select` and the empty `FD_CLR`, `FD_ISSET`, `FD_SET` and `FD_ZERO` stubs in select.rs are foreign calls or stubs and are left out.
- Math.Log2OfPowerOf2: the input is a natural below 2^64 and `bits >>= 1` is halving, which is the same thing on non-negative integers. The `u8` result type is represented by the bound `r < 64`.
- Math.RoundToPow2: inputs 0 and above 2^63 are excluded by the precondition. Rust panics on them in debug builds (subtraction underflow, addition overflow) and wraps in release builds.
- Math.RoundToPow2: identity on powers of two is proved as the separate lemma `SmearOfPow2` about the computed value, not as a clause of the method's own contract.
- shared_memory.rs, the libc wrappers and stubs of the other platform files, the build script, and the tests of `ScopeGuard` and `Port` are not part of this model. They are operating-system calls or code whose source is not available.
