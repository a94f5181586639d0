/** The semantics of the Mongoose schema validators the models use. */
module Schema {
  import opened Base

  /** `required: true` on a String path: a missing value and the empty string both fail. */
  predicate RequiredString(v: Option<string>) {
    v.Some? && v.value != ""
  }

  /** `required: true` on a Number, Date or ObjectId path: only a missing value fails. */
  predicate Required<T>(v: Option<T>) {
    v.Some?
  }

  /** `enum: values` on a String path: validators are skipped for a missing value. */
  predicate InEnum(v: Option<string>, values: seq<string>) {
    v.None? || v.value in values
  }

  /** `min: m` on a Number path holding integers: skipped for a missing value. */
  predicate AtLeastInt(v: Option<int>, m: int) {
    v.None? || v.value >= m
  }

  /** `min: m` on a Number path holding arbitrary numbers. */
  predicate AtLeast(v: Option<real>, m: real) {
    v.None? || v.value >= m
  }

  /** `Number.isInteger` on a finite number. */
  predicate IsWhole(r: real) {
    r.Floor as real == r
  }
}
