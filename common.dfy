/** Small shared vocabulary: an optional value and the C fixed-width counter type. */
module Common {

  datatype Option<T> = None | Some(value: T)

  /** `u_int64_t`, the width of the devstat byte counters. */
  type u64 = x: int | 0 <= x < 0x1_0000_0000_0000_0000
}
