/** The states a window can be in (MirWindowState), as far as the two policies tell them apart. */
module WindowStates {

  datatype WindowState =
    | Restored | Minimized | Maximized | VertMaximized | HorizMaximized | Fullscreen | Hidden
}
