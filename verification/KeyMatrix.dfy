/** The key matrix (components/keyboard/include/kb_matrix.h): one bit per key, in whole bytes. */
module KeyMatrix {
  const KB_MATRIX_ROW_COUNT: nat := 6
  const KB_MATRIX_COL_COUNT: nat := 18
  const KB_MATRIX_KEYS: nat := 108
  const KB_MATRIX_BITMAP_BYTES: nat := 14
}
