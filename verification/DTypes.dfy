/** Element types. */
module DTypes {
  datatype DType = F32 | F64 | F16 | BF16 | U8 | U32 | I64 {
    predicate IsFloat() {
      F32? || F64? || F16? || BF16?
    }
  }
}
