/** How alarm sub-types are spread over mask words (gpnAlmTypeStruct.h). */
module AlarmPages {
  const PAGE_NUM := 16
  const PAGE_BIT_SIZE := 28
}
