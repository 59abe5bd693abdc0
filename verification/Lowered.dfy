/** The planner's input tables: values, instructions and the program that holds them. */
module Lowered {
  // The largest `usize` of a 64-bit target.
  const USIZE_MAX: nat := 0xFFFF_FFFF_FFFF_FFFF

  type usize = n: nat | n <= USIZE_MAX

  // Memory spaces are only ever compared for equality.
  type MemorySpace = nat

  datatype ValueAccess = Read | Write | ReadWrite {
    predicate Reads() {
      Read? || ReadWrite?
    }

    predicate Writes() {
      Write? || ReadWrite?
    }
  }

  datatype ValueUse = ValueUse(value: nat, access: ValueAccess)

  datatype StorageClass =
    ExternalInput | PersistentConstant | PersistentState | EscapingOutput | Workspace | DeviceStatus

  datatype SegmentOwnership = WorkspaceOwned | InvocationStaging | ProvisionalOutput | StateTransaction

  datatype ValueStorage =
    | Fixed(storageClass: StorageClass)
    | Planned(storageClass: StorageClass, alignment: nat, space: MemorySpace, ownership: SegmentOwnership)
    | Alias(source: nat, byteOffset: usize)

  datatype ValueDecl = ValueDecl(id: nat, bytes: usize, storage: ValueStorage)

  /** An instruction's uses, one list per resource category; `outputs` are defining writes. */
  datatype Instruction = Instruction(
    id: nat,
    inputs: seq<ValueUse>,
    outputs: seq<nat>,
    scratch: seq<ValueUse>,
    staging: seq<ValueUse>,
    status: seq<ValueUse>,
    state: seq<ValueUse>)
  {
    function ResourceUses(): seq<ValueUse> {
      inputs
      + seq(|outputs|, i requires 0 <= i < |outputs| => ValueUse(outputs[i], Write))
      + scratch + staging + status + state
    }
  }

  datatype Program = Program(values: seq<ValueDecl>, instructions: seq<Instruction>, outputs: seq<nat>)

  datatype PlannerError =
    | ValueIdMismatch(index: nat, actual: nat)
    | InstructionIdMismatch(index: nat, actual: nat)
    | UnknownValue(instruction: Option<nat>, value: nat)
    | AliasCycle(value: nat)
    | AliasOutOfBounds(value: nat, source: nat, end: nat, capacity: nat)
    | ByteSizeOverflow(at: Option<nat>)
    | InvalidValueAlignment(value: nat, alignment: nat)
    | InvalidMemorySpaceConfig(index: nat)
    | DuplicateMemorySpaceConfig(first: nat, second: nat)
    | MissingMemorySpaceConfig(value: nat)
    | ValueTooLarge(value: nat, bytes: nat, requiredSegmentBytes: nat, maxSegmentBytes: nat)
    | ReadBeforeDefinition(value: nat, read: nat, definition: nat)
    | UndefinedPlannedValue(value: nat)
    | PackingConflict(first: nat, second: nat)
    | InvalidMemoryPlan

  import opened Wrappers

  /** `checked_add` on `usize`. */
  function CheckedAdd(a: usize, b: usize): Option<usize> {
    if a + b <= USIZE_MAX then Some(a + b) else None
  }
}
