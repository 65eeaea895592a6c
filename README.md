# XRT device metadata store, command-queue sizing, property formatting and xocl sysfs reads

This project models four pieces of sequential logic from the Xilinx Runtime
(XRT) and proves properties about them.

- **Section store** (module `Device`, class `Device.Device`).
  - When an xclbin (an axlf container) is registered on a device, the runtime forgets its earlier metadata.
  - It then copies the container's embedded-metadata, AIE-metadata, IP-layout, connectivity and memory-topology sections, each byte for byte.
  - It records the container's UUID.
  - Lookups are refused when a non-null UUID names another container.
  - The "or error" lookup also fails for a missing section.
  - The no-argument `get_ert_slots` reads the embedded XML metadata and fails without it.
- **ERT command-queue slot sizing** (module `ErtSlots`). This decides how many command slots the embedded-runtime queue is cut into, and how large each slot is.
  - A slot-size override from `xrt.ini` takes precedence. It is rejected when it would give more than 128 slots.
  - Otherwise the sizing starts from two slots per compute unit plus one reserved slot, clamped to [16, 128].
  - The slot size is then the larger of an even share of the queue and the largest compute unit.
  - The count is recomputed from that size, and a count above 16 is rounded up to the next multiple of 32 (one 32-bit status register per 32 slots).
  - The model is a specification function, `SlotPlan`, and a method, `GetErtSlots`. The method reassigns the slot count step by step, as the source does.
- **Property formatting** (module `PropertyFormat`). A `boost::any` is modelled as the tagged value `AnyValue`.
  - `format_primative` writes strings as they are, `uint64_t`/`uint16_t` in decimal and booleans as words. Any other tag is an error.
  - `format_hex` writes `0x` followed by lowercase hex.
  - `format_hex_base2_shiftup30` shifts a `uint64_t` left by 30 bits with 64-bit wrap-around before formatting it.
  - Numerals are specified by their value (`ValueOf`) and their canonical form (`IsNumeral`: digits in range, no leading zero). They are proved to be unique.
- **xocl sysfs binary attributes** (module `XoclSysfs`).
  - The user-function kernel driver's four read-only binary attributes expose a metadata section a chunk at a time. These are the debug IP layout, IP layout, connectivity and memory topology.
  - One method, `ReadSection`, copies the clamped chunk into a prefix of the caller's buffer, which is an `array`. The four attribute reads apply it to their own section.
  - `ResetStore` models the `reset` attribute's write.

Module `Common` holds the byte type, the error kinds, and the `Result` and `Option` wrappers. A C++ exception becomes `Err`, and a null pointer becomes `None`. Module `Arith` holds the facts about truncating division that the other modules share.

Calls into code outside this model become parameters:
- the xclbin XML queries (number of compute units, largest compute-unit size);
- the `xrt.ini` slot-size setting;
- the queue size `ERT_CQ_SIZE`, which is defined in `ert.h` (not part of this model);
- the result of `xocl_hot_reset`.

`::xclbin::get_axlf_section` is not part of this model. It is modelled as the first header of the requested kind in the container's section table (`FindHeader`).

## Model

| member | source | states |
|---|---|---|
| Device.FindHeader | src/runtime_src/core/common/device.cpp:71-73 | the header lookup finds a header of the requested kind that is in the table, and finds none exactly when no header has that kind |
| Device.CollectHolds | src/runtime_src/core/common/device.cpp:70-77 | the copy loop keeps a kind exactly when it is among the listed kinds and the container has a header for it, and the kept bytes are the bytes that header describes |
| Device.RegisteredSections | src/runtime_src/core/common/device.cpp:67-77 | after registration the stored kinds are exactly those of the five kept kinds that the container has, and each holds the container bytes `[offset, offset + size)` of its header; nothing from an earlier registration remains and no other kind is stored |
| Device.SectionBytes | src/runtime_src/core/common/device.cpp:74-75 | the bytes a header describes are exactly `sectionSize` bytes of the container, starting at `sectionOffset` |
| Device.Collect | src/runtime_src/core/common/device.cpp:69-77 | the table the copy loop builds holds only kinds from the list it is given |
| Device.Device.constructor | src/runtime_src/core/common/device.cpp:34-39 | a new device has no stored sections and the null UUID, as its default-constructed members are |
| Device.Device.RegisterAxlf | src/runtime_src/core/common/device.cpp:63-81 | clears the table, records the container UUID and fills the table kind by kind; the loop is proved to leave exactly the table described by `Collect` |
| Device.Device.GetAxlfSection | src/runtime_src/core/common/device.cpp:83-93 | fails with "xclbin id mismatch" exactly when the given id is non-null and differs from the stored UUID (so a null id is always accepted); otherwise finds a section exactly when its kind is stored, and returns the stored bytes |
| Device.Device.GetAxlfSectionOrError | src/runtime_src/core/common/device.cpp:95-103 | fails exactly when the plain lookup fails or the section is absent, with "no such xclbin section" in the latter case, and otherwise returns the same bytes as the plain lookup |
| Device.LookupAfterRegister | src/runtime_src/core/common/device.cpp:63-93 | right after registering a container, a lookup with a null id or the container's own id returns exactly that container's section bytes for a kept kind it has and nothing otherwise; any other id is refused |
| Device.OtherKindsNeverFound | src/runtime_src/core/common/device.cpp:69-76 | a section kind outside the five kept kinds is never found by the "or error" lookup after registration |
| Device.Device.GetErtSlots | src/runtime_src/core/common/device.cpp:143-151 | without embedded XML metadata the sizing fails with "No xml metadata in xclbin"; otherwise the result is the queue sizing of that metadata |
| ErtSlots.InitialSlots | src/runtime_src/core/common/device.cpp:122-126 | the initial slot count is `2 * numCus + 1` clamped into [16, 128]: equal to it inside the range, 16 below and 128 above |
| ErtSlots.ChosenSlotSize | src/runtime_src/core/common/device.cpp:128-131 | the slot size is at least both the even share of the queue and the largest compute unit, and equals one of them |
| ErtSlots.RoundToStatusRegister | src/runtime_src/core/common/device.cpp:134-138 | a count of 16 or fewer is unchanged; a count above 16 becomes a multiple of 32 that is at least the count and less than 32 above it, so it is the smallest such multiple |
| ErtSlots.DefaultSlots | src/runtime_src/core/common/device.cpp:120-140 | the default path yields a positive slot count whenever neither divisor can be zero |
| ErtSlots.Div | src/runtime_src/core/common/device.cpp:116-140 | unsigned division truncates: `b * q <= a < b * (q + 1)` |
| ErtSlots.SlotPlan | src/runtime_src/core/common/device.cpp:105-141 | with a non-zero override `s` the sizing fails, naming `s`, exactly when `cqSize / s > 128`, and otherwise returns `(cqSize / s, s)`; without one it takes the default path |
| ErtSlots.GetErtSlots | src/runtime_src/core/common/device.cpp:105-141 | the step-by-step computation agrees with `SlotPlan`; its override fails exactly when it would give more than 128 slots; the default path always succeeds with a positive slot count whose slots fit in the queue |
| ErtSlots.DefaultSlotsFillQueue | src/runtime_src/core/common/device.cpp:126-140 | the default path gives a positive count; `slots * slotSize <= cqSize`; a count above 16 lies on a status-register boundary; and when no rounding happened each slot is at least as large as the largest compute unit |
| ErtSlots.DefaultSlotsWithinStatusRegisters | src/runtime_src/core/common/device.cpp:109-140 | for a queue of at least 128 * 128 bytes the default path never yields more than 128 slots (four status registers) |
| ErtSlots.RoundingCanShrinkSlotBelowCuSize | src/runtime_src/core/common/device.cpp:131-140 | a 64 KiB queue, 10 compute units and a 3000-byte compute unit give 32 slots of 2048 bytes: rounding the count up makes each slot smaller than the compute unit the size was chosen for |
| ErtSlots.OversizedCuLeavesNoSlot | src/runtime_src/core/common/device.cpp:131-132 | when the largest compute unit exceeds the queue the recomputed slot count is 0, which the source divides by at line 140 |
| PropertyFormat.Numeral | src/runtime_src/core/common/device.cpp:163-165 | the rendering of `n` in a base between 2 and 16 is a canonical numeral (digits in range, no leading zero) whose value is `n` |
| PropertyFormat.Decimal | src/runtime_src/core/common/device.cpp:163-165 | `std::to_string` of an unsigned value is its canonical decimal numeral |
| PropertyFormat.Hex | src/runtime_src/core/common/device.cpp:181-184 | `%x` of an unsigned value is its canonical lowercase hex numeral, without prefix or padding |
| PropertyFormat.TypeName | src/runtime_src/core/common/device.cpp:170 | the type name in the error message is "h" for `uint8_t` and the reported name for any other held type |
| PropertyFormat.NumeralUnique | src/runtime_src/core/common/device.cpp:163-165 | two canonical numerals with the same value are the same string, so the rendering is the only one |
| PropertyFormat.FormatPrimative | src/runtime_src/core/common/device.cpp:153-175 | strings come back unchanged, `uint64_t` and `uint16_t` as the decimal numeral of their value, booleans as "true"/"false"; every other held type fails with an error naming that type |
| PropertyFormat.FormatHex | src/runtime_src/core/common/device.cpp:177-188 | `uint64_t` and `uint16_t` become "0x" followed by the lowercase hex numeral of their value; a `uint8_t` becomes "0x" followed by the character with that code; anything else is formatted as `FormatPrimative` does |
| PropertyFormat.FormatHexInjective | src/runtime_src/core/common/device.cpp:181-182 | the hex rendering of `uint64_t` values is injective: equal strings come from equal values |
| PropertyFormat.ShiftUp30 | src/runtime_src/core/common/device.cpp:228 | a 64-bit shift left by 30 keeps the low 34 bits of the value, moved up by 30 bits, and so is a multiple of 2^30 |
| PropertyFormat.FormatHexBase2Shiftup30 | src/runtime_src/core/common/device.cpp:224-240 | a `uint64_t` becomes the hex literal of `(v << 30) mod 2^64`; a `uint16_t` or `uint8_t` is promoted to `int` by the shift and fails as an unsupported type; other types are formatted as `FormatPrimative` does |
| PropertyFormat.ShiftupAgreesModulo34Bits | src/runtime_src/core/common/device.cpp:227-229 | two `uint64_t` values that agree in their low 34 bits format alike |
| XoclSysfs.ReadCount | src/runtime_src/driver/xclng/drm/xocl/userpf/xocl_sysfs.c:111-117 | a read returns 0 at or past the end, including for a negative offset; otherwise `min(count, size - offset)`; it never exceeds `count` and never reaches past the section |
| XoclSysfs.Chunk | src/runtime_src/driver/xclng/drm/xocl/userpf/xocl_sysfs.c:119 | the delivered bytes are as many as the read returns |
| XoclSysfs.ReadSection | src/runtime_src/driver/xclng/drm/xocl/userpf/xocl_sysfs.c:101-122 | returns the clamped count; `buffer[0..nread)` holds section bytes `[offset, offset + nread)` and every buffer byte at or after `nread` is unchanged, so a read past the end leaves the buffer as it was |
| XoclSysfs.ReadDebugIpLayout | src/runtime_src/driver/xclng/drm/xocl/userpf/xocl_sysfs.c:101-122 | the debug IP layout attribute read, with the contract of `ReadSection` over that section |
| XoclSysfs.ReadIpLayout | src/runtime_src/driver/xclng/drm/xocl/userpf/xocl_sysfs.c:135-156 | the IP layout attribute read, with the contract of `ReadSection` over that section |
| XoclSysfs.ReadConnectivity | src/runtime_src/driver/xclng/drm/xocl/userpf/xocl_sysfs.c:169-191 | the connectivity attribute read, with the contract of `ReadSection` over that section |
| XoclSysfs.ReadMemTopology | src/runtime_src/driver/xclng/drm/xocl/userpf/xocl_sysfs.c:204-225 | the memory topology attribute read, with the contract of `ReadSection` over that section |
| XoclSysfs.ReadToEndIsRest | src/runtime_src/driver/xclng/drm/xocl/userpf/xocl_sysfs.c:111-121 | a reader that starts at any offset inside the section and advances by each return value collects exactly the rest of the section |
| XoclSysfs.SequentialReadYieldsSection | src/runtime_src/driver/xclng/drm/xocl/userpf/xocl_sysfs.c:111-121 | reading from offset 0 with any positive chunk size yields the whole section in order, and the read after that returns 0 |
| XoclSysfs.ResetStore | src/runtime_src/driver/xclng/drm/xocl/userpf/xocl_sysfs.c:238-247 | a hot reset that returns 0 makes the write return `count`; any other result, negative error code or not, is returned unchanged, so an error code stays negative |

## Left out

- `get_xclbin_uuid` (device.cpp lines 48-61) is left out because it only forwards to a device query that is not part of this model.
- The property-tree populators `get_rom_info` through `read_firewall` are left out because they only forward to an external query layer.
- `format_base10_shiftdown3` and `format_base10_shiftdown6`, with their `to_string` helper, are left out because they are floating-point division and fixed-precision stream formatting.
- `xrt_core::xclbin::get_cus`, `get_max_cu_size`, `config::get_ert_slotsize`, `ERT_CQ_SIZE` and `xocl_hot_reset` are left out; their results are parameters.
- `::xclbin::get_axlf_section` is not part of this model either. Its lookup is taken to be the first header of the kind.
- The section table in `Device.Axlf` is assumed well formed, meaning every section lies within the container (`WellFormed`). The source reads past the container otherwise.
- A stored section of size zero is treated as present. In the source, an empty `std::vector` may hand out a null `data()`. `get_axlf_section_or_error` and the no-argument `get_ert_slots` test that pointer, so with such a library they would report an empty section as missing.
- ErtSlots.DefaultSlots, ErtSlots.SlotPlan, ErtSlots.GetErtSlots and Device.Device.GetErtSlots require `NoZeroDivisor` on the default path. The source does not guard either division there. `OversizedCuLeavesNoSlot` shows that a compute unit larger than the queue drives the slot count to 0, and the source then divides by it.
- ErtSlots.InitialSlots does not model the `size_t` wrap-around of `num_cus * 2 + 1`. That wrap needs more than 2^63 compute units.
- XoclSysfs.ReadSection requires a section shorter than 2^32 bytes. Under that bound the `u32 nread` truncation is written out in the method but changes nothing. Larger sections are not modelled.
- PropertyFormat.FormatHexBase2Shiftup30 does not model the overflow of the `uint16_t`/`uint8_t` branches. The shift promotes the value to `int`, and `v << 30` on an `int` is undefined behaviour in C++14 for every `v >= 4`, so the source promises nothing there. The model takes the outcome a typical compiler gives: an `int` that `format_primative` rejects with the type name "i".
- The sysfs registration, the text attributes (`xclbinuuid`, `userbar`, `user_pf`, `kdsstat`, `memstat`, `memstat_raw`), the kernel's locking and memory model, and how `sizeof_sect` derives a section's size are not modelled. The section's length is its size here.
- The type name that `format_primative` reports is the name `typeid(...).name()` returns. The model gives the held type's name as a string, with "h" for `uint8_t` and "i" for `int` as the Itanium C++ ABI spells them.
