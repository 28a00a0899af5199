/** Build configuration shared by the memory subsystem. */
module KernelConfig {
  const PAGE_SHIFT: nat := 12
  const PAGE_SIZE: nat := 4096
}
