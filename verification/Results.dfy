/** The FRESULT codes of ff.h that the modelled functions return. */
module Results {
  datatype FResult =
    | FR_OK
    | FR_INT_ERR
    | FR_NO_FILE
    | FR_INVALID_NAME
    | FR_DENIED
    | FR_NO_FILESYSTEM
    | FR_MKFS_ABORTED
    | FR_NOT_ENOUGH_CORE
    | FR_INVALID_PARAMETER
}
