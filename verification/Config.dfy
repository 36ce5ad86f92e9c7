/** Sizes of src/config/config.h. */
module Config {

  const MAX_FIELD_SIZE: int := 128   // MAX_KEY_SIZE and MAX_VALUE_SIZE
  const MAX_PATH_SIZE: int := 256
  const MAX_HEADER_COUNT: int := 128
  const MAX_QUERY_COUNT: int := 10
}
