/** One participant's response row, as `sheet.get_all_records()` hands it to
    the planning code. Only the three text cells the core reads are kept; a
    missing or empty cell is the empty string. */
module Sheet {

  datatype Record = Record(available: string, notFeasible: string, selected: string)
}
