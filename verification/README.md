# Fabric OS kernel: a verified model

This project models the parts of the Fabric OS kernel whose correctness depends on several functions agreeing with
each other, and proves what they promise. `dafny verify dfyconfig.toml` checks all of it.

- **Capabilities.** `FixedMap` is the open-addressing hash table with backward-shift deletion, proved against a finite
  map for every hash function. `CapabilityModel`, `CapabilityDfs`, `CapabilityStore` and `CapabilityRuns` are the token
  store: its delegation tree lives in first-child and next-sibling pointers, revocation is a walk with an explicit
  stack, and nonces and budgets are tracked per token.
- **Frames.** `BuddyBlocks`, `BuddyAllocator` and `BuddyRuns` are the buddy allocator. Its bitmap and its free lists
  describe the same set twice; the central fact is that the lists hold exactly the maximal aligned blocks of the free
  frames.
- **Cryptography.** `Poly1305` and `Poly1305Mac` prove the 26-bit limb code equal to section 2.5 of RFC 8439;
  `Field25519`, `X25519Bytes`, `X25519Load` and `X25519` prove the 51-bit limb code equal to section 5 of RFC 7748,
  which `X25519Spec` writes down. `Bits`, `ModArith` and `LittleEndian` hold what they need about bits, remainders and
  bytes.
- **Processes.** `ProcessModel` says what each operation does to the process table, the run queues and the supervision
  tree; `ProcessInvariant`, `Supervision`, `Escalation` and `ProcessRuns` prove what holds in every reachable state and
  what a crash does. `CurrentProcess`, `Waiters` and `SpawnOrder` take three properties that some operations break, and
  prove which ones do. `ProcessSystem` is the table and scheduler as the kernel keeps them.
- **Governance.** `Rules` and `RuleEngine` are the sorted first-match rule table; `Governance` and `GovernanceEngine`
  are the safety, authority-continuity and break-glass machines and the policy check; `SeverityTest` decides for any
  rule list whether a check can lower the severity.
- **Address spaces.** `PageTables`, `AddressSpaces` and `UserSpace` are the four-level page tables against a flat map
  from pages to frames.
- **Message bus.** `BusQueue`, `BusArena`, `BusAudit`, `BusModel` and `BusRouter` are the inbox rings, the payload
  arena, the hash-chained audit log and the router; `BusPayloads` says how long a pending message can be read.

Code that the kernel writes as updates in place is written here as classes whose methods are proved equal to functions
on values; the invariants, the theorems over runs and the closed forms are about those functions. The modules whose
names end in `Answers` say what each call answers and leaves behind, on the fields of the data. Hashes and signatures
are arbitrary functions: nothing is assumed about them. Machine words are naturals; in the limb arithmetic every cast
and sum is shown to fit. A mask or a shift that only keeps or drops low bits is written as a remainder or a quotient;
`Poly1305.Mask26Is` and `Field25519.Mask51Is` say that they are the same.

Some facts a reader may not expect:

- The genesis rules are ten, not nine as the comments in `constitution.rs` say.
- `mul_small` is documented for constants below 2^16 but is called with 121666; the bound proved here covers it.
- The ladder in `x25519` runs 255 steps, not 254 as its comment says.
- While Lockdown and Emergency last, the break-glass reopens one tick after it expires, so the 60-second limit closes it
  for one tick in 60,001 (`Governance.GlassCycle`).
- The check in `map_user_page` lets addresses between the two halves through. A map at such an address can change the
  kernel's own tables, or map another page than the one it names: `AddressSpaces.KernelHalfKeptIff` and
  `AddressSpaces.MapsOwnPageIff` say exactly when, and `AddressSpaces.KernelTableWritten` shows it happen.
- For arbitrary rules a policy check can lower the severity (`SeverityTest.EmergencyRuleLowers`);
  `SeverityTest.SeverityKeptIff` is an exact test on the rule list, and the genesis rules pass it.
- A delegated token can outlive its parent (`CapabilityModel.NeverExpires`); `CapabilityModel.DeadlineBoundedIff` says
  exactly when it does not.
- Two processes can be Running (`CurrentProcess.TwoRunning`): a change of priority takes the current process off the
  processor without changing its state (`CurrentProcess.RunningKeptIff`), and the next scheduling can start a second
  one. `CurrentProcess.OneRunningIff` says exactly when.
- A process can be below the priority of someone who waits for it (`Waiters.WaiterForgotten`); `Waiters.CoveredIff` says
  exactly which operations bring that about.
- `spawn_order` is the number of children at the time, so after a child has terminated a new one can get an order that
  is not above the others, and RestForOne then restarts the wrong children (`SpawnOrder.OrdersSwapped`).
  `SpawnOrder.RestForOneIff` says for which orders it restarts the right ones, and `SpawnOrder.RiseKeptIff` which
  operations keep that.
- `verify_chain` does not look at the hash kept for the next entry and skips empty slots, so a rewritten or a shortened
  log is accepted (`BusAudit.RewrittenEndIsAccepted`, `BusAudit.EmptiedEndsAreAccepted`); compared with that hash it is
  not (`BusAudit.AuditLog.Newest`).

## Model

| member | source | states |
|---|---|---|
| FixedMap.Fibonacci | kernel/src/capability/slab.rs:23-26 | the hash index is always inside the table |
| FixedMap.Step | kernel/src/capability/slab.rs:93-122 | masking with capacity - 1 is the cyclic successor on the 16384 slots |
| FixedMap.EmptySlotExists | kernel/src/capability/slab.rs:105-107 | below the load limit some slot is empty, which is why every probe loop ends |
| FixedMap.MissMeansAbsent | kernel/src/capability/slab.rs:125-137 | a probe that reaches an empty slot without meeting the key proves that the finite map lacks it, for every hash function |
| FixedMap.InsertKeepsTable | kernel/src/capability/slab.rs:93-122 | filling the empty slot a probe ended in keeps: every slot from a key's home to its position is occupied, cyclically |
| FixedMap.UpdateKeepsTable | kernel/src/capability/slab.rs:112-116 | overwriting a value in place keeps the table and updates the finite map |
| FixedMap.TakeOpensGap | kernel/src/capability/slab.rs:169-185 | taking a key out leaves a table with exactly one hole that probes may not cross |
| FixedMap.MoveKeepsGap | kernel/src/capability/slab.rs:191-213 | moving an entry back into the hole keeps every other key reachable and moves the hole |
| FixedMap.SkipKeepsGap | kernel/src/capability/slab.rs:191-213 | an entry that may not move over the hole can be skipped |
| FixedMap.GapCloses | kernel/src/capability/slab.rs:191-216 | once the scan meets an empty slot the hole is an ordinary empty slot: the table is whole again |
| FixedMap.New | kernel/src/capability/slab.rs:23-53 | a new map with the kernel's hash is the empty finite map |
| FixedMap.FixedMap.constructor | kernel/src/capability/slab.rs:46-53 | a new map is the empty finite map, for any hash into the slots |
| FixedMap.FixedMap.EnsureInit | kernel/src/capability/slab.rs:57-72 | allocating the slots on first use changes no entry |
| FixedMap.FixedMap.Probe | kernel/src/capability/slab.rs:93-122 | the probe loop ends at the key or at an empty slot before which the key cannot be |
| FixedMap.FixedMap.Insert | kernel/src/capability/slab.rs:93-122 | insert is insertion into the finite map; it is refused exactly for a new key at three quarters load |
| FixedMap.FixedMap.Find | kernel/src/capability/slab.rs:125-137 | the position of a key exactly when the finite map holds it |
| FixedMap.FixedMap.Get | kernel/src/capability/slab.rs:125-137 | lookup agrees with the finite map |
| FixedMap.FixedMap.ContainsKey | kernel/src/capability/slab.rs:160-162 | membership agrees with the finite map |
| FixedMap.FixedMap.SetExisting | kernel/src/capability/slab.rs:140-156 | an update through a found entry updates the finite map at that key only |
| FixedMap.FixedMap.GetOrInsert | kernel/src/capability/slab.rs:222-231 | the value of the key, inserted if missing; None (the panic) only for a new key at the load limit |
| FixedMap.FixedMap.Remove | kernel/src/capability/slab.rs:169-216 | removes exactly that key from the finite map and returns its value; the backward shift terminates |
| FixedMap.FixedMap.CloseGap | kernel/src/capability/slab.rs:187-213 | the shifting loop closes the hole without losing or moving any key out of reach |
| FixedMap.FixedMap.ShiftOne | kernel/src/capability/slab.rs:191-213 | one step of the shift keeps the hole invariant and comes nearer to an empty slot |
| FixedMap.FixedMap.Clear | kernel/src/capability/slab.rs:242-249 | empties the finite map |
| CapabilityModel.CreateKeepsInv | kernel/src/capability/store.rs:83-119 | creating a token keeps the forest, the capacity limits and the trackers |
| CapabilityModel.DelegateKeepsInv | kernel/src/capability/store.rs:124-189 | delegating keeps them too, on every error path and on success |
| CapabilityModel.ValidateKeepsInv | kernel/src/capability/store.rs:195-237 | validating keeps the store invariant |
| CapabilityModel.ValidateTouchesTrackersOnly | kernel/src/capability/store.rs:195-237 | validating changes no token, and only the two tracker records of that token |
| CapabilityModel.TickKeepsInv | kernel/src/capability/store.rs:337-344 | time passing keeps the store invariant |
| CapabilityModel.RevokeKeepsInv | kernel/src/capability/store.rs:294-324 | revoking keeps the forest, the capacity limits and the trackers |
| CapabilityModel.ChainListsChildren | kernel/src/capability/store.rs:274-286 | following first_child and next_sibling lists exactly the live children, each once, youngest first |
| CapabilityModel.OnePointerToEachChild | kernel/src/capability/store.rs:240-271 | exactly one record points at each delegated token: its parent or its next younger sibling |
| CapabilityModel.DelegationAttenuates | kernel/src/capability/store.rs:124-189 | along every delegation chain permissions only shrink, the resource is the same and every ancestor may grant |
| CapabilityModel.RevokeRootChangesNoPointer | kernel/src/capability/store.rs:294-324 | revoking a root removes its subtree and changes no other record |
| CapabilityModel.RevokeChangesOnePointer | kernel/src/capability/store.rs:240-324 | revoking a delegated token removes exactly its subtree and changes exactly one pointer of one other record |
| CapabilityModel.ConsumeStaysInBudget | kernel/src/capability/budget.rs:29-44 | a use is allowed exactly when fewer uses than the budget were made in the interval, it is then counted, and the count never passes the budget |
| CapabilityModel.DeadlineBoundedIff | kernel/src/capability/store.rs:149-155 | a delegated token expires whenever its parent has exactly when the parent never expires, or a lifetime other than 0 was asked for and ends no later than the parent's, both counted from their own creation |
| CapabilityModel.NeverExpires | kernel/src/capability/store.rs:149-155 | a lifetime of 0 under a parent that expires gives a token that never does |
| CapabilityDfs.PopKeepsFrontier | kernel/src/capability/store.rs:310-321 | visiting the top of the stack keeps: visited and pending subtrees are disjoint and together are the subtree to revoke |
| CapabilityDfs.FrontierStarts | kernel/src/capability/store.rs:305-308 | the walk starts with the whole subtree pending |
| CapabilityDfs.FrontierEnds | kernel/src/capability/store.rs:310-323 | an empty stack means that exactly the subtree has been visited |
| CapabilityStore.CapabilityStore.constructor | kernel/src/capability/store.rs:64-72 | a new store is empty and satisfies the invariant's starting state |
| CapabilityStore.CapabilityStore.Create | kernel/src/capability/store.rs:83-119 | the new state and the result of create, error paths included |
| CapabilityStore.CapabilityStore.Delegate | kernel/src/capability/store.rs:124-189 | the new state and the result of delegate, error paths included |
| CapabilityStore.CapabilityStore.Validate | kernel/src/capability/store.rs:195-237 | the new state and the result of validate, in the order of the checks |
| CapabilityStore.CapabilityStore.CheckAndAdvance | kernel/src/capability/nonce.rs:27-35 | accepts exactly a larger nonce and records it |
| CapabilityStore.CapabilityStore.CheckAndConsume | kernel/src/capability/budget.rs:29-44 | the budget record after a use, and whether it is accepted |
| CapabilityStore.CapabilityStore.UnlinkChild | kernel/src/capability/store.rs:240-271 | the sibling walk relinks exactly the one pointer at the child |
| CapabilityStore.CapabilityStore.CollectChildren | kernel/src/capability/store.rs:274-286 | collects exactly the live children |
| CapabilityStore.CapabilityStore.RemoveSubtree | kernel/src/capability/store.rs:305-323 | the explicit-stack walk removes exactly the subtree and counts it |
| CapabilityStore.CapabilityStore.Revoke | kernel/src/capability/store.rs:294-324 | revoke removes the token and its transitive delegates, returns their number, and is NotFound for an unknown id |
| CapabilityStore.CapabilityStore.Perform | kernel/src/capability/store.rs:83-324 | any operation keeps the invariant |
| CapabilityStore.TrackedFits | kernel/src/capability/store.rs:224-234 | the trackers only hold live ids, so an insertion into them is never refused |
| CapabilityStore.InvMeetsPreconditions | kernel/src/capability/store.rs:83-324 | the invariant implies what each operation needs |
| CapabilityRuns.ReachableStoreInv | kernel/src/capability/store.rs:83-324 | every store reachable by any run of operations satisfies the invariant |
| CapabilityRuns.NeverInvalidHmac | kernel/src/capability/store.rs:195-237 | no reachable store holds a token whose signature fails |
| CapabilityRuns.ConsumeKeepsWindow | kernel/src/capability/budget.rs:29-44 | each accepted use keeps the count of every window of the interval's length at most twice the budget |
| CapabilityRuns.EveryRunOk | kernel/src/capability/store.rs:83-324 | over every run: budgets and nonces of all tokens behave as recorded |
| CapabilityRuns.BudgetTheorem | kernel/src/capability/budget.rs:29-44 | any run accepts at most m uses per tracker interval and at most 2m in any T consecutive ticks |
| CapabilityRuns.NonceTheorem | kernel/src/capability/nonce.rs:27-35 | the accepted nonces of a token strictly increase over every run |
| CapabilityAnswers.WithinIs | kernel/src/capability/store.rs:145-147 | the subset test is: every bit asked for is one of the parent's |
| CapabilityAnswers.CreateMints | kernel/src/capability/store.rs:83-119 | a new token carries exactly the permissions, owner, resource, lifetime and budget asked for, is signed, and is the only change; a full store is left alone |
| CapabilityAnswers.DelegateAnswer | kernel/src/capability/store.rs:124-189 | the answer of a delegation, each error with its condition, in the order of the checks; an error changes nothing |
| CapabilityAnswers.DelegateMints | kernel/src/capability/store.rs:124-189 | a delegated token carries what was asked for and its parent's resource and the shorter lifetime, becomes its parent's first child, and nothing else changes |
| CapabilityAnswers.ValidateIff | kernel/src/capability/store.rs:195-237 | a use is accepted exactly when the token is live, intact, in time, permits what is required, the nonce is above the last and the budget has a use left; each error has its condition |
| CapabilityAnswers.ValidateLeaves | kernel/src/capability/store.rs:195-237 | what a validation leaves behind for each answer: the nonce, the count and the start of the interval, and nothing else |
| CapabilityAnswers.RevokeAnswer | kernel/src/capability/store.rs:294-324 | revoking removes exactly the token and what was delegated from it, and answers how many tokens went; an unknown one is an error and changes nothing |
| CapabilityAnswers.RevokeLeaves | kernel/src/capability/store.rs:294-324 | survivors keep their fields and tracker records, and no removed token has one |
| CapabilityAnswers.EveryUseAllowed | kernel/src/capability/store.rs:195-237 | over every run each accepted use was before its token's deadline and required only permissions the token was minted with |
| BuddyBlocks.Laminar | kernel/src/memory/frame.rs:186-207 | two aligned blocks are nested or disjoint |
| BuddyBlocks.ParentIsBothHalves | kernel/src/memory/frame.rs:375-400 | a block and its buddy together are exactly the parent block |
| BuddyBlocks.AddBlock | kernel/src/memory/frame.rs:225-232 | adding a block that cannot merge adds exactly that one to the maximal blocks |
| BuddyBlocks.MaximalIsAddable | kernel/src/memory/frame.rs:234-242 | taking a maximal block away leaves all the others maximal |
| BuddyBlocks.MaximalUnique | kernel/src/memory/frame.rs:167-207 | no two maximal blocks overlap |
| BuddyBlocks.MaximalAround | kernel/src/memory/frame.rs:319-358 | every free aligned block lies inside a maximal one |
| BuddyAllocator.SplitStep | kernel/src/memory/frame.rs:343-348 | putting the upper half back while splitting keeps the lists exact |
| BuddyAllocator.MergeStep | kernel/src/memory/frame.rs:375-400 | a free buddy is itself a listed maximal block, so the failed removal that would break off the merge cannot happen |
| BuddyAllocator.GreedyStep | kernel/src/memory/frame.rs:167-183 | the greedy scan lists exactly the maximal blocks of the frames passed so far |
| BuddyAllocator.BuddyAllocator.constructor | kernel/src/memory/frame.rs:125-134 | a new allocator has nothing free |
| BuddyAllocator.BuddyAllocator.SetBit | kernel/src/memory/frame.rs:211-213 | the frame alone leaves the set that the bitmap calls free |
| BuddyAllocator.BuddyAllocator.ClearBit | kernel/src/memory/frame.rs:215-217 | the frame alone joins the set that the bitmap calls free |
| BuddyAllocator.BuddyAllocator.IsFree | kernel/src/memory/frame.rs:219-221 | the bitmap tells membership in the free set |
| BuddyAllocator.BuddyAllocator.PushFreeList | kernel/src/memory/frame.rs:225-232 | the frame becomes the head of its list; the other lists are untouched |
| BuddyAllocator.BuddyAllocator.PopFreeList | kernel/src/memory/frame.rs:234-242 | the head leaves its list, or the list was empty |
| BuddyAllocator.BuddyAllocator.RemoveFromFreeList | kernel/src/memory/frame.rs:244-276 | true exactly if the frame was listed, and then it alone is gone |
| BuddyAllocator.BuddyAllocator.FindBefore | kernel/src/memory/frame.rs:257-275 | the walk ends after fewer steps than there are frames, so the panic on a cycle is never reached |
| BuddyAllocator.BuddyAllocator.MaxBlockOrder | kernel/src/memory/frame.rs:186-207 | the largest aligned free block that starts at the frame |
| BuddyAllocator.BuddyAllocator.BuildFreeLists | kernel/src/memory/frame.rs:167-183 | the lists hold exactly the maximal aligned blocks of the free frames |
| BuddyAllocator.BuddyAllocator.InitFromRegions | kernel/src/memory/frame.rs:137-165 | exactly the whole frames of the regions are free, counted and listed |
| BuddyAllocator.BuddyAllocator.FindOrder | kernel/src/memory/frame.rs:327-334 | the least order with a listed block |
| BuddyAllocator.BuddyAllocator.SplitDown | kernel/src/memory/frame.rs:343-348 | splitting leaves exactly the maximal blocks of what is not handed out |
| BuddyAllocator.BuddyAllocator.Allocate | kernel/src/memory/frame.rs:319-358 | fails exactly when no aligned free run of that size exists; otherwise hands out such a run, cut from a smallest sufficient block |
| BuddyAllocator.BuddyAllocator.BlockIsFree | kernel/src/memory/frame.rs:378-386 | the bitmap check of a whole buddy |
| BuddyAllocator.BuddyAllocator.MergeOnce | kernel/src/memory/frame.rs:375-400 | merges exactly when the buddy is wholly free |
| BuddyAllocator.BuddyAllocator.MergeUp | kernel/src/memory/frame.rs:371-400 | merging ends with a block that can be listed as maximal |
| BuddyAllocator.BuddyAllocator.Deallocate | kernel/src/memory/frame.rs:361-407 | the frames are free again and the lists again hold exactly the maximal blocks |
| BuddyRuns.EveryRunAccounted | kernel/src/memory/frame.rs:319-407 | over every run live blocks are disjoint, inside the usable frames, and free plus live is everything |
| BuddyRuns.ReturningEverythingRestores | kernel/src/memory/frame.rs:319-407 | returning everything, in any order, restores the initial free set and block structure |
| BuddyRuns.NoListedBuddies | kernel/src/memory/frame.rs:361-407 | no two buddies of an order below 10 are both listed |
| BuddyRuns.Drive | kernel/src/memory/frame.rs:319-407 | running any list of requests keeps free_frames plus the sizes of live blocks constant |
| Poly1305.ProductsModP | kernel/src/network/crypto.rs:572-587 | the five columns represent the product modulo 2^130 - 5, without overflow |
| Poly1305.CarryFits | kernel/src/network/crypto.rs:589-602 | no step of the carry chain leaves its word |
| Poly1305.CarryModP | kernel/src/network/crypto.rs:589-602 | the carry chain keeps the value modulo 2^130 - 5 |
| Poly1305.Mask26Is | kernel/src/network/crypto.rs:529-533 | truncating to 32 bits and masking with 0x3ffffff is the remainder modulo 2^26 |
| Poly1305.SplitVal | kernel/src/network/crypto.rs:560-570 | cutting four words into 26-bit limbs keeps the number |
| Poly1305.ClampVal | kernel/src/network/crypto.rs:528-533 | masking limb by limb is the clamp of section 2.5 of RFC 8439 on the whole number |
| Poly1305.LoadWordsVal | kernel/src/network/crypto.rs:523-526 | four little-endian words are the 16 bytes as a number |
| Poly1305.BufferVal | kernel/src/network/crypto.rs:554-558 | the padded buffer and the high bit give the block with its extra bit |
| Poly1305.BlockStepModP | kernel/src/network/crypto.rs:550-605 | one block: (accumulator + block) times r modulo 2^130 - 5 |
| Poly1305Mac.FinalCarry | kernel/src/network/crypto.rs:607-618 | after the last carry every limb is below 2^26 |
| Poly1305Mac.FinalCarryModP | kernel/src/network/crypto.rs:607-618 | and the value is the same modulo 2^130 - 5 |
| Poly1305Mac.MaskTells | kernel/src/network/crypto.rs:627-661 | bit 26 of the wrapped top limb tells whether the value is below the prime |
| Poly1305Mac.FreezeVal | kernel/src/network/crypto.rs:627-669 | the selected limbs hold the value reduced below the prime |
| Poly1305Mac.PackVal | kernel/src/network/crypto.rs:671-675 | the packed words are the value modulo 2^128 |
| Poly1305Mac.AddWordsVal | kernel/src/network/crypto.rs:677-683 | the word-wise addition is addition modulo 2^128 |
| Poly1305Mac.BytesAreLe | kernel/src/network/crypto.rs:685-690 | the bytes of the words are the little-endian bytes of the number |
| Poly1305Mac.Process | kernel/src/network/crypto.rs:547-605 | over all blocks the accumulator stays congruent to the definition's |
| Poly1305Mac.Mac | kernel/src/network/crypto.rs:518-691 | the result is the tag of section 2.5 of RFC 8439, for every key and message |
| Field25519.Add | kernel/src/network/crypto.rs:225-233 | the sum in the field; small operands give one that multiplication accepts |
| Field25519.Sub | kernel/src/network/crypto.rs:235-244 | the difference in the field; adding 2p first keeps every limb from going below zero |
| Field25519.ProductsFit | kernel/src/network/crypto.rs:246-264 | every column fits in 128 bits |
| Field25519.ColumnsModP | kernel/src/network/crypto.rs:257-264 | the columns represent the product modulo 2^255 - 19 |
| Field25519.CarryFits | kernel/src/network/crypto.rs:266-284 | no step of the carry chain leaves its word, the fold times 19 included |
| Field25519.Mul | kernel/src/network/crypto.rs:246-285 | the product in the field, with tight limbs |
| Field25519.Mask51Is | kernel/src/network/crypto.rs:266-283 | truncating to 64 bits and masking is the remainder modulo 2^51, which is how the carry chains are written |
| Field25519.MulSmall | kernel/src/network/crypto.rs:292-309 | the product with a small constant in the field |
| Field25519.FPowAdd | kernel/src/network/crypto.rs:324-335 | powers add exponents in the field |
| X25519Bytes.FirstRound | kernel/src/network/crypto.rs:150-157 | one round of carries leaves limbs 1 to 4 at 51 bits |
| X25519Bytes.SecondRound | kernel/src/network/crypto.rs:150-157 | a second round leaves every limb at 51 bits |
| X25519Bytes.QuotientTells | kernel/src/network/crypto.rs:158-163 | the chain q is 1 exactly when the value is at least the prime |
| X25519Bytes.FreezeVal | kernel/src/network/crypto.rs:158-169 | the frozen limbs hold the value reduced below the prime |
| X25519Bytes.PackIs | kernel/src/network/crypto.rs:171-222 | the 32 bytes are the little-endian bytes of the number |
| X25519Bytes.ToBytes | kernel/src/network/crypto.rs:148-223 | the bytes of the element's one value below the prime |
| X25519Load.FromBytesVal | kernel/src/network/crypto.rs:137-145 | loading keeps the low 255 bits of the number |
| X25519Load.FromBytesRep | kernel/src/network/crypto.rs:137-145 | the loaded element is the coordinate that section 5 of RFC 7748 decodes |
| X25519.Cswap | kernel/src/network/crypto.rs:348-355 | exchanges the two elements exactly when the flag is 1 |
| X25519.Pow | kernel/src/network/crypto.rs:324-335 | square and multiply computes the power with bits 254 to 0 of the exponent, for every 32 bytes |
| X25519.InverseExponentIs | kernel/src/network/crypto.rs:313-319 | the constant bytes denote p - 2 |
| X25519.Invert | kernel/src/network/crypto.rs:312-321 | the (p - 2)-th power |
| X25519.SameCoefficient | kernel/src/network/crypto.rs:382-394 | BB + 121666 E is the definition's AA + 121665 E |
| X25519.Mix | kernel/src/network/crypto.rs:382-394 | the arithmetic of one ladder step on limbs is that of the definition, with tight limbs |
| X25519.Rung | kernel/src/network/crypto.rs:375-395 | one iteration is one step of the definition |
| X25519.Climb | kernel/src/network/crypto.rs:367-399 | the loop is the ladder over bits 254 to 0 |
| X25519.ClampIs | kernel/src/network/crypto.rs:363 | clearing the three low bits |
| X25519.ClampLastIs | kernel/src/network/crypto.rs:364-365 | clearing the top bit and setting the one below |
| X25519.Multiply | kernel/src/network/crypto.rs:360-403 | for every scalar and coordinate the result is that of section 5 of RFC 7748 |
| LittleEndian.LeSlice | kernel/src/network/crypto.rs:339-345 | the bytes of a window are those of the number |
| LittleEndian.RoundTrip | kernel/src/network/crypto.rs:685-690 | writing a number and reading it back gives its low bytes |
| LittleEndian.BitOfBytes | kernel/src/network/crypto.rs:328-330 | bit i of a number is bit i mod 8 of byte i / 8 |
| ProcessInvariant.DequeueDetaches | kernel/src/process/scheduler.rs:95-102 | dequeue takes a process out of every queue and off the processor, and leaves all others placed |
| ProcessInvariant.EnqueueAttaches | kernel/src/process/scheduler.rs:86-92 | enqueue puts it back in exactly the queue of its priority |
| ProcessInvariant.ScheduleNextKeepsInv | kernel/src/process/scheduler.rs:106-146 | scheduling keeps the invariant |
| ProcessInvariant.ScheduleNextPicksHighest | kernel/src/process/scheduler.rs:106-146 | on a switch the chosen process was first in its queue, no runnable process has a higher priority, and it gets the slice of its priority |
| ProcessInvariant.IdleMeansNoneCanRun | kernel/src/process/scheduler.rs:106-146 | None is returned only when no process is ready or running |
| ProcessInvariant.ConsumeTickKeepsInv | kernel/src/process/scheduler.rs:221-233 | using up a tick keeps the invariant |
| ProcessInvariant.InheritKeepsInv | kernel/src/process/mod.rs:177-213 | priority inheritance keeps the invariant |
| ProcessInvariant.InheritRaises | kernel/src/process/mod.rs:177-213 | inheritance only raises effective priorities, to at most the waiter's, and the target gets at least that |
| ProcessInvariant.BlockKeepsInv | kernel/src/process/mod.rs:151-174 | blocking keeps the invariant |
| ProcessInvariant.BlockedPriorityIsInherited | kernel/src/process/mod.rs:151-174 | whoever a blocked process waits for has at least its priority |
| ProcessInvariant.WokenFits | kernel/src/process/scheduler.rs:183-217 | the boosts on waking keep the effective priority between the base and Critical |
| ProcessInvariant.UnblockKeepsInv | kernel/src/process/mod.rs:216-260 | unblocking and reverting the boost keep the invariant |
| ProcessInvariant.SpawnKeepsInv | kernel/src/process/mod.rs:66-119 | spawning keeps the invariant, and a new pid is never taken |
| ProcessInvariant.TerminateKeepsInv | kernel/src/process/mod.rs:122-147 | terminating keeps the invariant |
| Supervision.KillAllIs | kernel/src/process/supervisor.rs:120-129 | the killing loop takes exactly the listed processes out of the queues and terminates them |
| Supervision.RestartAllIs | kernel/src/process/supervisor.rs:131-135 | the restarting loop makes exactly the listed processes ready, in order, at their base priorities |
| Supervision.RestartKilledIs | kernel/src/process/supervisor.rs:113-136 | both loops together, in closed form, order of the queues included |
| Supervision.LaterMembers | kernel/src/process/supervisor.rs:138-160 | the RestForOne list is exactly the children whose spawn order is at least that of the crashed one |
| Supervision.WithinLimitRestarts | kernel/src/process/supervisor.rs:70-182 | a supervisor within its limit restarts exactly its strategy's set and changes nothing else but its own tracker |
| Supervision.HandleCrashKeepsInv | kernel/src/process/supervisor.rs:70-182 | handling a crash keeps the invariant, escalation included |
| Supervision.CrashKeepsInv | kernel/src/process/mod.rs:263-281 | a crash keeps the invariant |
| Escalation.HandleCrashOutcome | kernel/src/process/supervisor.rs:70-182 | every process after a crash, in closed form: supervisors that gave up, the one that handled it, the restarted set, and all others as before |
| Escalation.CrashOutcome | kernel/src/process/mod.rs:263-281 | the same for a crash reported from outside |
| Escalation.CrashLeavesOthers | kernel/src/process/mod.rs:263-281 | a process started later than the crashed one changes only if it is in the restarted set |
| Escalation.TrackerHolds | kernel/src/process/supervisor.rs:34-41 | under nondecreasing time a tracker holds this restart and every earlier one in its window |
| Escalation.ReportedIff | kernel/src/process/supervisor.rs:34-41 | a restart is reported exactly when more than the limit fall into its window |
| Escalation.RestartIntensity | kernel/src/process/supervisor.rs:34-41 | if none was ever reported, no window of that length holds more restarts than the limit |
| ProcessRuns.RaisesPlan | kernel/src/process/scheduler.rs:149-168 | aging collects exactly the starved processes, each once |
| ProcessRuns.AgingKeepsInv | kernel/src/process/scheduler.rs:149-179 | aging keeps the invariant |
| ProcessRuns.AgingRaisesTheStarved | kernel/src/process/scheduler.rs:149-179 | aging raises every starved process by one level and changes nothing else about any process |
| ProcessRuns.BootInv | kernel/src/process/butler.rs:25-58 | the state with only the Butler satisfies the invariant |
| ProcessRuns.ApplyKeepsInv | kernel/src/process/mod.rs:66-281 | every operation keeps the invariant |
| ProcessRuns.Run | kernel/src/process/mod.rs:66-281 | every state reached by any list of operations satisfies the invariant |
| ProcessRuns.EveryRunPlaces | kernel/src/process/mod.rs:66-281 | in every reachable state a ready process is in exactly one queue, that of its priority; a running one is there or current, never both; others in none; base <= effective <= 4 |
| CurrentProcess.InheritCurrent | kernel/src/process/mod.rs:177-213 | inheritance takes the current process off the processor exactly when it raises it |
| CurrentProcess.BlockKeepsRunningIff | kernel/src/process/mod.rs:151-213 | a block keeps every running process current exactly when its inheritance does not reach the current process |
| CurrentProcess.UnblockKeepsRunningIff | kernel/src/process/mod.rs:216-260 | a wake-up keeps it exactly when the woken process did not wait for a current process above its base priority |
| CurrentProcess.RunningKeptIff | kernel/src/process/mod.rs:66-281 | the same for every operation: it fails for these two cases and no other |
| CurrentProcess.AtMostOneRunning | kernel/src/process/mod.rs:66-281 | every running process is current throughout a run exactly when no operation takes the current one off the processor, and then at most one is Running |
| CurrentProcess.ScheduleStartsSecondIff | kernel/src/process/scheduler.rs:106-146 | from any state with at most one Running process, scheduling keeps it so exactly when it does not find nothing current and a process other than the running one at the head of the highest queue |
| CurrentProcess.OneRunningIff | kernel/src/process/mod.rs:66-281 | the same for every operation: no other one makes a process Running |
| CurrentProcess.EveryRunOneIff | kernel/src/process/mod.rs:66-281 | at most one process is Running throughout a run exactly when no scheduling starts a second one |
| CurrentProcess.TwoRunning | kernel/src/process/mod.rs:177-213 | a run of seven operations after which two processes are Running |
| Waiters.InheritCoversIff | kernel/src/process/mod.rs:177-213 | inheritance leaves every process with at least the priority of its waiters exactly when the depth limit does not cut it off before a lower process |
| Waiters.BlockCoversIff | kernel/src/process/mod.rs:151-174 | the same for a block, from any state in which it holds |
| Waiters.UnblockCoversIff | kernel/src/process/mod.rs:216-260 | a wake-up keeps it exactly when nobody else waits, above the priority that is left, for the woken process or for the one it waited for |
| Waiters.CrashCoversIff | kernel/src/process/mod.rs:263-281 | a crash keeps it exactly when no process that is not restarted waits, at a higher priority, for one that goes back to its base |
| Waiters.SpawnCoversIff | kernel/src/process/mod.rs:66-119 | a spawn keeps it exactly when nobody already waits, at a higher priority, for the pid it hands out |
| Waiters.CoveredIff | kernel/src/process/mod.rs:66-281 | all operations together; scheduling, aging, ticks and terminating always keep it |
| Waiters.EveryRunCoversIff | kernel/src/process/mod.rs:66-281 | every process has at least the priority of each of its waiters throughout a run exactly when no operation uncovers one |
| Waiters.WaiterForgotten | kernel/src/process/mod.rs:246-260 | a run of five operations after which a process is at priority 0 while another waits for it at 4 |
| SpawnOrder.RestForOneIff | kernel/src/process/supervisor.rs:138-160 | under RestForOne a crash of any child restarts it and exactly those started after it, if and only if spawn orders strictly ascend along the list of children |
| SpawnOrder.TerminateKeepsRise | kernel/src/process/mod.rs:122-147 | terminating never breaks that |
| SpawnOrder.SpawnKeepsRiseIff | kernel/src/process/mod.rs:66-119 | a spawn keeps it exactly when the number of children is above the order of the newest one |
| SpawnOrder.RiseKeptIff | kernel/src/process/mod.rs:66-281 | the same for every operation: only such a spawn breaks it |
| SpawnOrder.EveryRunAscends | kernel/src/process/mod.rs:66-147 | in every reachable state children stand in the order in which they were started |
| SpawnOrder.EveryRunRisesIff | kernel/src/process/mod.rs:66-281 | spawn orders ascend throughout a run exactly when no child is started with a repeated order |
| SpawnOrder.OrdersSwapped | kernel/src/process/mod.rs:84-138 | a run after which a crash of the earlier of two children does not restart the later one, and a crash of the later one restarts both |
| CrashAnswers.DueIs | kernel/src/process/supervisor.rs:104-160 | the processes to restart are the crashed one, all children, or the children of at least its spawn order, by strategy |
| CrashAnswers.CrashRestarts | kernel/src/process/supervisor.rs:70-182 | within its limit a supervisor makes exactly those ready at their base priority with every field of a restart, and leaves every other process unchanged |
| CrashAnswers.SupervisorNotes | kernel/src/process/supervisor.rs:70-93 | the restart is noted in the supervisor's tracker, and nothing else of it changes |
| CrashAnswers.CrashAnswer | kernel/src/process/supervisor.rs:70-182 | the answer is 1, the number of children, or the number of those of at least the spawn order; over the limit, or without a supervisor, an error |
| CrashAnswers.ReportedCrash | kernel/src/process/mod.rs:263-281 | the same for a crash reported from outside: the crashed process is down with its exit reason unless it is restarted itself |
| CrashAnswers.UnsupervisedCrash | kernel/src/process/mod.rs:263-281 | an unknown process is an error; one that nobody supervises goes down, and nothing else changes |
| CrashAnswers.LastResort | kernel/src/process/supervisor.rs:70-93 | a supervisor over its limit that the kernel supervises goes down, and nothing else changes |
| CrashAnswers.ExceedsIff | kernel/src/process/supervisor.rs:34-41 | a restart is one too many exactly when the restarts of the window, with it, are more than allowed |
| ProcessAnswers.SpawnAnswer | kernel/src/process/mod.rs:66-119 | the answer of a spawn, and every field of the new process and of its supervisor |
| ProcessAnswers.TerminateAnswer | kernel/src/process/mod.rs:122-147 | the process is down for good, its supervisor forgets it, and every other process is as before |
| ProcessAnswers.InheritLifts | kernel/src/process/mod.rs:177-213 | inheritance gives the waiter's priority to exactly the chain of lower processes, four at most |
| ProcessAnswers.BlockAnswer | kernel/src/process/mod.rs:151-174 | the answer of a block, the fields of the blocked process, and whose priority rises |
| ProcessAnswers.WokenIs | kernel/src/process/scheduler.rs:183-217 | the wake-up priority by category and deadline |
| ProcessAnswers.UnblockAnswer | kernel/src/process/mod.rs:216-260 | the answer of a wake-up, the fields of the woken process, the base priority of the one it waited for, and every other process as before |
| ProcessAnswers.ScheduleAnswer | kernel/src/process/scheduler.rs:106-146 | a process with ticks left goes on; else the chosen one runs on 20, 15, 10, 5 or 2 ticks by priority, the one before is ready, and every other process is as before |
| ProcessAnswers.ConsumeAnswer | kernel/src/process/scheduler.rs:221-233 | one tick is taken from the slice, and the answer tells whether any is left |
| ProcessAnswers.AgingAnswer | kernel/src/process/scheduler.rs:149-179 | exactly the ready processes below Critical not scheduled for 100 ticks rise by one level |
| ProcessSystem.Retain | kernel/src/process/scheduler.rs:95-98 | retain drops exactly that process and keeps the order |
| ProcessSystem.RecordRestart | kernel/src/process/supervisor.rs:34-41 | the tracker after a restart, and whether it is one too many |
| ProcessSystem.FilterLater | kernel/src/process/supervisor.rs:145-160 | the RestForOne list |
| ProcessSystem.Processes.constructor | kernel/src/process/butler.rs:25-58 | the system starts with the Butler ready, and satisfies the invariant |
| ProcessSystem.Processes.Dequeue | kernel/src/process/scheduler.rs:95-102 | the new queues and current process |
| ProcessSystem.Processes.ScheduleNext | kernel/src/process/scheduler.rs:106-146 | the new state and the chosen process |
| ProcessSystem.Processes.RunAging | kernel/src/process/scheduler.rs:149-179 | the new state after aging |
| ProcessSystem.Processes.ApplyInheritance | kernel/src/process/mod.rs:177-213 | the new state along the chain of at most four |
| ProcessSystem.Processes.Block | kernel/src/process/mod.rs:151-174 | the new state and the result, errors included |
| ProcessSystem.Processes.Unblock | kernel/src/process/mod.rs:216-243 | the new state and the result, errors included |
| ProcessSystem.Processes.Terminate | kernel/src/process/mod.rs:122-147 | the new state and the result |
| ProcessSystem.Processes.HandleChildCrash | kernel/src/process/supervisor.rs:70-182 | the new state and the result of handling a crash; the recursion ends because supervisors have smaller pids |
| ProcessSystem.Processes.Crash | kernel/src/process/mod.rs:263-281 | the new state and the result |
| ProcessSystem.Processes.Perform | kernel/src/process/mod.rs:66-281 | any operation, from any state of the invariant, keeps it |
| Rules.InsertKeeps | kernel/src/governance/rules.rs:144-159 | inserting keeps the descending order |
| Rules.SortedIsSorted | kernel/src/governance/rules.rs:144-159 | sorting yields the same rules in descending priority |
| Rules.SortedOfSorted | kernel/src/governance/rules.rs:201-216 | sorting a sorted list changes nothing |
| Rules.FirstMatchIsWinner | kernel/src/governance/rules.rs:144-183 | first match on the sorted list is the matching rule of highest priority, the earliest loaded among equals |
| Rules.GenesisFirstMatch | kernel/src/governance/constitution.rs:22-144 | the action the ten genesis rules decide on, in closed form, for every context |
| RuleEngine.SwapStep | kernel/src/governance/rules.rs:150-156 | one swap of the insertion sort keeps what is still to be inserted |
| RuleEngine.Engine.SiftDown | kernel/src/governance/rules.rs:150-156 | the inner loop inserts one rule |
| RuleEngine.Engine.Sort | kernel/src/governance/rules.rs:150-156 | the outer loop sorts in place |
| RuleEngine.Engine.LoadRules | kernel/src/governance/rules.rs:144-157 | the table then holds the first 64 rules, sorted |
| RuleEngine.Engine.AddRule | kernel/src/governance/rules.rs:201-216 | the table with one more rule, sorted, or unchanged when full |
| RuleEngine.Engine.RemoveRule | kernel/src/governance/rules.rs:219-232 | the first rule of that name is gone; true exactly if there was one |
| RuleEngine.Engine.ReplaceRule | kernel/src/governance/rules.rs:235-251 | the first rule of that name is exchanged and the table sorted again |
| RuleEngine.Engine.Evaluate | kernel/src/governance/rules.rs:162-183 | the first match in the table |
| RuleEngine.CheckAll | kernel/src/governance/rules.rs:78-85 | true exactly if all conditions hold |
| RuleEngine.WithoutDescending | kernel/src/governance/rules.rs:219-232 | removing a rule keeps the order |
| Governance.GenesisPolicy | kernel/src/governance/mod.rs:172-253 | with the genesis rules and no bypass a message may go exactly if it is from the Butler, or from a process other than the kernel, with no Emergency, no Lockdown, priority 4 in Chaos and priority 2 from Elevated on |
| Governance.GenesisNeverLowers | kernel/src/governance/mod.rs:172-253 | with the genesis rules a check never lowers the severity |
| Governance.EveryRunInv | kernel/src/governance/mod.rs:88-106 | over every run the ACS state is a fixed function of the ticks since the last heartbeat, and an active break-glass is under 60,000 ticks old |
| Governance.EmergencyLocksDown | kernel/src/governance/mod.rs:88-106 | the tick that enters Emergency ends in Lockdown, with the break-glass open unless an earlier activation expires on that tick |
| Governance.GlassAfterTick | kernel/src/governance/mod.rs:88-106 | after each tick an active break-glass is under 60,000 ticks old and safety is neither Normal nor Elevated |
| Governance.LockdownLasts | kernel/src/governance/safety.rs:114-231 | Lockdown lasts through any further events until a human confirms |
| Governance.GlassCycle | kernel/src/governance/break_glass.rs:45-100 | while Lockdown and Emergency last the break-glass is closed on exactly one tick in 60,001 |
| SeverityTest.SameFirst | kernel/src/governance/rules.rs:162-183 | a context and its sample are decided by the same rule, for any rules |
| SeverityTest.SeverityKeptIff | kernel/src/governance/mod.rs:172-253 | a list of at most 64 rules with at most 4 conditions never lets a check lower the severity, in any state and for any message the kernel can build, exactly when none of finitely many sample contexts, themselves of such messages, is escalated to Chaos |
| SeverityTest.EmergencyRuleLowers | kernel/src/governance/mod.rs:219-253 | with the emergency rule alone a check in Lockdown and Emergency moves to Chaos, for every message |
| SeverityTest.GenesisPasses | kernel/src/governance/constitution.rs:22-144 | the genesis rules can be loaded and pass that test |
| GovernanceAnswers.FirstDecides | kernel/src/governance/rules.rs:162-183 | the rule that decides is the first that matches |
| GovernanceAnswers.DecidesByPriority | kernel/src/governance/rules.rs:144-183 | in a sorted list it has the highest priority of all that match |
| GovernanceAnswers.UncheckedAnswer | kernel/src/governance/mod.rs:172-179 | before set-up every message may go, and nothing changes |
| GovernanceAnswers.BypassAnswer | kernel/src/governance/mod.rs:180-185 | while the break-glass is open every message may go; bypass, evaluation and log count by one, and nothing else changes |
| GovernanceAnswers.PolicyAnswer | kernel/src/governance/mod.rs:186-269 | otherwise, for any rules, the answer is that of the deciding rule over its six actions; refusals are counted, and only an escalation changes safety, to Chaos |
| GovernanceAnswers.TimeMoves | kernel/src/governance/safety.rs:114-127 | Elevated clears after 300,000 ticks and Safe after 1,800,000 |
| GovernanceAnswers.AnomalyMoves | kernel/src/governance/safety.rs:131-144 | the third anomaly of a window of 60,000 ticks raises Normal to Elevated |
| GovernanceAnswers.AlarmMoves | kernel/src/governance/safety.rs:147-154 | the third alarm raises Elevated to Chaos |
| GovernanceAnswers.CriticalMoves | kernel/src/governance/safety.rs:177-194 | a critical signal raises by one step, at most once in 5,000 ticks |
| GovernanceAnswers.SignalMoves | kernel/src/governance/safety.rs:177-231 | a lesser signal does so when the window weighs 150, or 300 out of Elevated, and stays in the window otherwise |
| GovernanceAnswers.ConfirmMoves | kernel/src/governance/safety.rs:163-170 | a confirmation ends Lockdown in Safe and does nothing otherwise |
| GovernanceAnswers.HandOpens | kernel/src/governance/break_glass.rs:70-78 | the break-glass opens by hand, for 60,000 ticks |
| GovernanceAnswers.TickGlass | kernel/src/governance/mod.rs:88-106 | a tick opens a closed break-glass exactly in Lockdown and Emergency, and closes an open one exactly when its time is up or safety is Normal or Elevated |
| GovernanceAnswers.TickSafety | kernel/src/governance/mod.rs:88-106 | a tick locks down exactly when it gives up the authority |
| GovernanceAnswers.EveryMoveAllowed | kernel/src/governance/mod.rs:88-269 | over every run the safety state moves only along seven kinds of steps, each with its events |
| GovernanceAnswers.EveryRunYoung | kernel/src/governance/safety.rs:114-127 | over every run Elevated is less than 300,000 ticks old and Safe less than 1,800,000 |
| GovernanceAnswers.BurstRaises | kernel/src/governance/safety.rs:131-144 | over every run an anomaly raises Normal to Elevated only if three were reported within 60,000 ticks |
| GovernanceEngine.SafetyStateMachine.Evict | kernel/src/governance/safety.rs:196-205 | compacting in place keeps exactly the signals of the window, in order |
| GovernanceEngine.SafetyStateMachine.WeightedSum | kernel/src/governance/safety.rs:213-217 | the sum of the weights in the buffer |
| GovernanceEngine.SafetyStateMachine.ReportSignal | kernel/src/governance/safety.rs:177-231 | the state after a weighted signal |
| GovernanceEngine.Governor.constructor | kernel/src/governance/mod.rs:63-85 | the engine starts with the genesis rules sorted |
| GovernanceEngine.Governor.Tick | kernel/src/governance/mod.rs:88-106 | the state after a tick |
| GovernanceEngine.Governor.EvaluatePolicy | kernel/src/governance/mod.rs:172-269 | the new state and whether the message may go |
| GovernanceEngine.Governor.Handle | kernel/src/governance/mod.rs:63-269 | any event, from any state of the invariant, gives the state of the run and keeps the invariant |
| PageTables.SamePath | kernel/src/memory/page_table.rs:102-116 | two addresses have the same four indices exactly when their page numbers agree modulo 2^36 |
| PageTables.GrowEntry | kernel/src/address_space/per_process.rs:259-276 | a new entry is present, writable and open to user code, and leads to an empty table |
| PageTables.TableAfterGrow | kernel/src/address_space/per_process.rs:259-276 | a new table is found at its own path, nothing is below it, and every other table is where it was |
| PageTables.GrowKeepsTree | kernel/src/address_space/per_process.rs:259-276 | a new table keeps the tables whole, distinct and out of the allocator |
| PageTables.LookupAfterLeaf | kernel/src/address_space/per_process.rs:226-233 | changing a last-level entry changes that page and no other |
| PageTables.DescendChangesNoPage | kernel/src/address_space/per_process.rs:208-225 | walking down, creating tables, changes no page, even if it runs out of frames |
| PageTables.MapChangesOnePage | kernel/src/address_space/per_process.rs:75-97 | for any path: a map is refused exactly for a mapped page or without frames, adds that page otherwise, and changes no other page of either half |
| PageTables.UnmapChangesOnePage | kernel/src/address_space/per_process.rs:100-116 | for any path: an unmap returns the frame of a mapped page, removes that page and changes no other of either half |
| AddressSpaces.MapRefines | kernel/src/address_space/per_process.rs:75-97 | mapping refines the flat map: taken pages are refused, free ones added, a failed map changes nothing, and the counter is the size of the map |
| AddressSpaces.UnmapRefines | kernel/src/address_space/per_process.rs:100-116 | unmapping removes exactly that page and returns its frame, or reports that there is none |
| AddressSpaces.MapSparesForeign | kernel/src/address_space/per_process.rs:208-235 | mapping writes to no frame but the tables on its side of the root and new ones |
| AddressSpaces.MapKeepsUpper | kernel/src/address_space/per_process.rs:208-235 | mapping a user page leaves the kernel's half of the root table alone |
| AddressSpaces.KernelHalfKeptIff | kernel/src/address_space/per_process.rs:75-97 | for every address that passes the check, the whole map keeps the kernel's half of the root and every table below it exactly when the address indexes the lower half, the page is mapped already, or a table is missing and no frame is left |
| AddressSpaces.MapsOwnPageIff | kernel/src/address_space/per_process.rs:75-97 | a map that succeeds changes one page, which is the page of that address exactly for addresses below 0x8000_0000_0000 |
| AddressSpaces.UnmapKeepsKernelIff | kernel/src/address_space/per_process.rs:100-116 | an unmap keeps the kernel's half exactly when the address indexes the lower half or nothing is mapped there |
| AddressSpaces.KernelTableWritten | kernel/src/address_space/per_process.rs:82-97 | at 0x8000_0000_0000 the check passes and a map writes into a table of the kernel |
| AddressSpaces.RunKeepsKernel | kernel/src/address_space/per_process.rs:75-116 | no run of maps and unmaps of the lower half changes the kernel's half of the root or a table below it |
| AddressSpaces.DestroyFreesTables | kernel/src/address_space/per_process.rs:121-158 | destroying frees each user table exactly once and nothing else |
| AddressSpaces.FlatRun | kernel/src/address_space/per_process.rs:75-116 | the tables refine the flat map through every run |
| AddressSpaces.OtherPagesKept | kernel/src/address_space/per_process.rs:75-116 | after any run a page that no operation named is mapped as before |
| UserSpace.SharesKernel | kernel/src/address_space/per_process.rs:46-72 | if the tables under the upper half of the kernel's root are a tree of page tables, the new address space's are one too, at the same paths |
| UserSpace.AddressSpace.constructor | kernel/src/address_space/per_process.rs:46-72 | a new address space maps nothing and carries the kernel's half, and under that condition on the kernel's tables meets what the theorems about both halves need |
| UserSpace.AddressSpace.WalkOrCreate | kernel/src/address_space/per_process.rs:208-225 | walks to the last-level table, creating what is missing |
| UserSpace.AddressSpace.MapUserPage | kernel/src/address_space/per_process.rs:75-97 | the new tables and the result for every address; addresses from 0xFFFF_8000_0000_0000 on are refused |
| UserSpace.AddressSpace.Walk | kernel/src/address_space/per_process.rs:238-256 | finds the last-level table without creating any |
| UserSpace.AddressSpace.UnmapUserPage | kernel/src/address_space/per_process.rs:100-116 | the new tables and the result for every address |
| UserSpace.AddressSpace.FreePd | kernel/src/address_space/per_process.rs:139-147 | a second-level table and those below it, in order |
| UserSpace.AddressSpace.Destroy | kernel/src/address_space/per_process.rs:121-158 | gives back exactly the user tables, in order, and only once |
| BusQueue.Pushed | kernel/src/bus/queue.rs:52-60 | writing at the tail appends to the contents of the ring |
| BusQueue.Popped | kernel/src/bus/queue.rs:63-71 | clearing the head removes the oldest of the contents |
| BusQueue.InboxQueue.Push | kernel/src/bus/queue.rs:52-60 | appends, unless 32 are pending |
| BusQueue.InboxQueue.Pop | kernel/src/bus/queue.rs:63-71 | removes and returns the oldest |
| BusQueue.InboxQueue.Peek | kernel/src/bus/queue.rs:74-79 | returns the oldest |
| BusArena.PlaceOk | kernel/src/bus/arena.rs:46-77 | a placed payload reads back |
| BusArena.SliceSurvives | kernel/src/bus/arena.rs:46-85 | a slice reads back through any 62 later payloads of any sizes |
| BusArena.PayloadSurvives | kernel/src/bus/arena.rs:46-85 | a payload can be read back through any 62 later ones |
| BusArena.SixtyThreeOverwrite | kernel/src/bus/arena.rs:46-77 | from a new arena, some run of 63 later payloads overwrites one |
| BusArena.PayloadArena.Allocate | kernel/src/bus/arena.rs:46-77 | the new buffer and cursor, and the slice |
| BusAudit.AppendKeepsChain | kernel/src/bus/audit.rs:35-70 | appending keeps the hashes chained |
| BusAudit.CheckIff | kernel/src/bus/audit.rs:74-130 | the check accepts a full ring exactly when its hashes chain, and counts all its entries |
| BusAudit.ChainWindow | kernel/src/bus/audit.rs:85-92 | what the ring still holds of a chain is a chain |
| BusAudit.SameBelow | kernel/src/bus/audit.rs:74-130 | two chains that agree in one hash agree in every entry up to it, or two facts have the same hash |
| BusAudit.RewrittenEndIsAccepted | kernel/src/bus/audit.rs:74-130 | any rewritten end of a chain is accepted once it is linked and hashed again |
| BusAudit.AuditLog.Record | kernel/src/bus/audit.rs:35-70 | one more entry; the ring holds the last 512 |
| BusAudit.AuditLog.VerifyChain | kernel/src/bus/audit.rs:74-130 | the result of the check on any contents, also tampered ones |
| BusAudit.AuditLog.Untampered | kernel/src/bus/audit.rs:74-130 | without tampering the check gives (min(count, 512), true), however often the ring has wrapped |
| BusAudit.AcceptedIff | kernel/src/bus/audit.rs:74-130 | any contents, with empty slots anywhere, are accepted exactly when the hashes of the entries left chain, and the count is their number |
| BusAudit.EmptiedEndsAreAccepted | kernel/src/bus/audit.rs:74-130 | slots emptied at either end of a chain are not noticed but for the count |
| BusAudit.AuditLog.Newest | kernel/src/bus/audit.rs:35-130 | accepted contents whose last hash is the one the log keeps are the newest entries of the log, as many as counted, or two facts have the same hash |
| BusAudit.AuditLog.WholeIff | kernel/src/bus/audit.rs:35-130 | without such a pair, contents are accepted in full with that last hash exactly when they are the log's own |
| BusAudit.AuditLog.Detected | kernel/src/bus/audit.rs:74-130 | full contents that the check accepts and that agree with the log in one hash agree with it in every entry up to there, or two facts have the same hash |
| BusModel.CountKeeps | kernel/src/bus/sequence.rs:29-51 | an accepted number extends 1, 2, 3, ... by the next one |
| BusModel.SendKeeps | kernel/src/bus/router.rs:145-296 | sending keeps the invariant on every path |
| BusModel.ReceiveKeeps | kernel/src/bus/router.rs:299-302 | receiving keeps the order of the inbox and the counters |
| BusModel.RegisterKeeps | kernel/src/bus/router.rs:107-119 | registering keeps the invariant |
| BusModel.UnregisterKeeps | kernel/src/bus/router.rs:122-128 | dropping an inbox accounts for its messages |
| BusModel.EveryRun | kernel/src/bus/router.rs:107-302 | over every run: messages are received in push order, accepted numbers are 1, 2, 3, ..., sent = received + pending + dropped, sent + rejected = log entries, and the log chains |
| BusModel.FullInboxUsesNumber | kernel/src/bus/router.rs:258-278 | a message to a full inbox, with or without a payload, is refused and still uses up its number |
| BusPayloads.StillThere | kernel/src/bus/arena.rs:46-85 | the k-th stored payload reads back from its slice while at most 62 were stored after it |
| BusPayloads.SendTracks | kernel/src/bus/router.rs:145-296 | a send stores at most one payload, and the envelope it delivers carries that slice |
| BusPayloads.Follow | kernel/src/bus/router.rs:87-302 | over every run the arena is what the stored payloads make it, and each pending envelope carries the slice of its own payload |
| BusPayloads.PendingReadsBack | kernel/src/bus/router.rs:145-313 | over every run a pending message reads back the bytes sent while at most 62 payloads were stored after it, those of refused messages included |
| BusAnswers.SendAnswer | kernel/src/bus/router.rs:145-296 | the answer of a send: accepted exactly under nine conditions on version, ends, length, number, arena and inbox; each error has its condition, in the order of the checks |
| BusAnswers.SendDelivers | kernel/src/bus/router.rs:145-296 | a refused message leaves all inboxes as they were; an accepted one is last in the receiver's and in no other |
| BusAnswers.SendIsLogged | kernel/src/bus/router.rs:145-296 | each send adds one log entry naming the message's own ends, type, capability and number, the time, and the action that matches the answer |
| BusAnswers.RegisterAnswer | kernel/src/bus/router.rs:107-119 | the answer of a registration, each error with its condition |
| BusAnswers.UnregisterAnswer | kernel/src/bus/router.rs:122-128 | a process that leaves takes its inbox and its numbers, and nothing of any other |
| BusAnswers.ReceiveAnswer | kernel/src/bus/router.rs:299-302 | the oldest message is received, and no other inbox changes |
| BusAnswers.EveryMessageProper | kernel/src/bus/router.rs:145-302 | over every run each pending or received message is addressed to its receiver by another process that is not the kernel, with at most 4096 bytes |
| BusRouter.Router.constructor | kernel/src/bus/router.rs:73-84 | an empty bus |
| BusRouter.Router.Send | kernel/src/bus/router.rs:145-296 | the new state and the result, errors included |
| BusRouter.Router.VerifyAuditChain | kernel/src/bus/router.rs:342-344 | always (min(count, 512), true) |
| BusRouter.Router.Perform | kernel/src/bus/router.rs:87-302 | any operation, from any state of the invariant, gives the state of the run and keeps the invariant |

## Left out

- TCP, TLS, DNS, ARP, network devices, PCI and virtio: I/O and hardware registers.
- SHA-2, SHA-3, HMAC and HKDF: they are parameters here. ChaCha20 and the AEAD built on it would only add easy members.
- The council, the display, the window manager, gaming, the JavaScript engine, the shell and the boot sequence.
- Locks, lock ordering and interrupts: each public call is one atomic step.
- Overflow of 64-bit counters and tick counts, and of the 32-bit pid counter: they are unbounded here.
- Test-only calls that force or reset state, and `clear` of the stores other than that of `FixedMap`.
- The amendment tracker and the constitution hash: branch-level facts only.
- The bit layout of a page table entry: an entry is a record of a present bit, a frame and flags.
- Handle tables, behavioural profiles and saved contexts of processes, and `spawn_user` and `spawn_elf`.
- Monitors of the bus, and the HMAC in an envelope.
- That an effective priority is never above the maximum of the base and the waiters' priorities: aging raises it too.
- CapabilityStore.CapabilityStore.Perform: does not model id overflow; it needs room for one more id.
- CapabilityStore.CapabilityStore.Create: the three tables are finite maps with the specification that FixedMap is
  proved to meet, not FixedMap objects, so aliasing between table slots is not captured there.
- BuddyAllocator.BuddyAllocator.Deallocate: requires a block that is not free, aligned to its order, as the code relies
  on; a double free is not modelled.
- BuddyAllocator.BuddyAllocator.InitFromRegions: requires disjoint regions without frame 0, which encodes the null link.
- Field25519.Mul: requires limbs below 2^54, which every call inside the ladder meets; the least bound for which nothing
  overflows is not stated.
- Field25519.MulSmall: requires limbs below 2^54 and a constant up to 2^17, which covers the one call.
- X25519Bytes.ToBytes: requires limbs below 2^54, which every element the ladder produces meets.
- X25519.Invert: states the power p - 2, not that it is the inverse, which would need that p is prime.
- X25519.Cswap: works on five named limbs instead of a loop over an array.
- ProcessSystem.Processes.Crash: requires that every supervisor has a smaller pid, which holds in every reachable state;
  without it the recursion in the code need not end.
- Governance.EveryRunInv: the flag for an alternate authority is fixed for a run.
- UserSpace.AddressSpace.MapUserPage: requires that the tables the walk passes through are page tables; entries for
  large pages in the kernel's half, which the code would follow as if they led to tables, are not modelled.
- UserSpace.AddressSpace.UnmapUserPage: the same.
- UserSpace.AddressSpace.Destroy: lists the frames that are given back, in order, instead of calling the allocator.
- SeverityTest.SeverityKeptIff: takes the process table and the token store as parameters: any sender may have any
  priority from 0 to 4 and name any resource kind.
- BusAudit.AuditLog.Newest: the hash is any function, so how hard it is to find a collision is not stated.
- BusRouter.Router.Send: the HMAC of an envelope and the monitors are not part of it. An inbox is a bounded sequence
  with the specification that BusQueue.InboxQueue is proved to meet; the policy and capability checks made before the
  bus is locked are not part of it.
