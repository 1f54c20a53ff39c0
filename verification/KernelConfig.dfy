/** What several modules share: OS/config/FreeRTOSConfig.h, and types of C that Dafny has no equal of. */
module KernelConfig {
  const configMAX_PRIORITIES: nat := 32

  /** uint8_t */
  type byte = x: nat | x < 256

  /** A pointer, or an item of a list, that may be missing */
  datatype Option<T> = None | Some(value: T)
}
