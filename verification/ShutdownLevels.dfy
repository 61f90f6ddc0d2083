/** How a shutdown is to be carried out. */
module ShutdownLevels {
  datatype Level = Unknown | RightNow | Gracefully
}
